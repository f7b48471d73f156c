# Spelling Bee drill: a Dafny model

The Spelling Bee web app takes a list of words typed by the user. It then
drills them one at a time. Each round it draws a word at random, plays a
spoken definition and example sentences, and checks the typed spelling,
ignoring case. This project models the two parts of `app.py` that have logic
of their own:

- **the word-list parser** `create_lst_words` (module `WordList`). It splits
  the text on runs of commas and whitespace and drops the empty pieces. The
  regular-expression split is written as a character-by-character scan
  (`Split`), followed by the filter (`DropEmpty`).
- **the drill session** held in `st.session_state` by `main()` (module
  `DrillSession`). Its state is the word pool `word_list`, the word in hand
  `word_selected`, the flag `correct_spelling` and the counter `input_key`.
  The class `Session` holds these four fields and updates them in place:
  - `Submit` is the Submit button;
  - `Select` is the selection step at the top of the Exercise tab;
  - `Check` is the Check Spelling button;
  - `Exercise` is one whole pass through the Exercise tab.

  Each method is tied to a function on a `State` value (`SubmitList`,
  `SelectWord`, `CheckSpelling`, `ExercisePass`). The lemmas about whole
  drills replay those functions over a sequence of passes (`Replay`).
  Module `Spelling` models the case-insensitive comparison of line 163.

Streamlit re-runs `main()` from the top on every click. Here each click is
one explicit call. Within one pass, the check can only follow the selection
step. So a drill is a sequence of `Run`s: each gives the index the random
draw picks, and the answer typed if the button was clicked. A new word is
drawn only on the run that opens the Exercise tab, or on the one that
`st.rerun()` starts after a passed check. The button was not clicked on
either. `Feasible` says which sequences of `Run`s the program can
therefore produce: a pass that draws never checks. The lemmas about whole drills
(`ReplayKeepsTally`, `Exhaustion`) hold for every enabled sequence, feasible
or not, so in particular for the program's.

## Model

| member | source | states |
|---|---|---|
| `WordList.Split` | app.py:14 | the split pieces are free of delimiters; there is exactly one piece if and only if the text has no delimiter; the first piece is empty exactly when the text is empty or starts with a delimiter; the last piece is empty exactly when the text is empty or ends with a delimiter; every piece strictly between the first and the last is non-empty |
| `WordList.SplitAfterWord` | app.py:14 | a word followed by nothing or by a delimiter is cut off whole as the first piece, followed by the pieces of the rest after its leading empty piece |
| `WordList.SplitAfterDelimiters` | app.py:14 | a run of delimiters followed by nothing or by a word becomes one empty piece in front of the pieces of the rest; together with `SplitAfterWord` this fixes where every text is cut |
| `WordList.SplitKeepsCharacters` | app.py:14 | the pieces written one after the other are the text with every delimiter deleted |
| `WordList.DropEmpty` | app.py:17 | the filter keeps only non-empty pieces, each taken from its input; the concatenation is unchanged |
| `WordList.DropEmptyCounts` | app.py:17 | every non-empty piece occurs in the filtered list exactly as often as in the input |
| `WordList.DropEmptySingle` | app.py:17 | a single piece is kept exactly when it is non-empty |
| `WordList.DropEmptyAppend` | app.py:17 | filtering a concatenation concatenates the filtered parts, so the kept pieces stay in their order |
| `WordList.CreateWordList` | app.py:12-18 | every returned word is non-empty and contains no comma or whitespace; the words concatenated in order are exactly the input with its delimiters deleted (order kept, duplicates kept) |
| `WordList.NothingButDelimiters` | app.py:12-18 | the parser returns `[]` if and only if the text is empty or consists only of commas and whitespace |
| `WordList.SingleWord` | app.py:12-18 | a non-empty text without delimiters parses to the one-element list holding that text |
| `WordList.DelimiterPrefix` | app.py:14-17 | leading commas and whitespace never change the parsed list |
| `WordList.WordThenRest` | app.py:14-17 | a word followed by nothing or by a delimiter comes out first, whole, followed by the words of the rest |
| `WordList.Separated` | app.py:14-17 | any run of delimiters separates: the words of `a + sep + b` are the words of `a` followed by the words of `b` |
| `WordList.JoinRoundTrip` | app.py:12-18 | joining any list of words with any run of delimiters and parsing the result gives back exactly that list, repeats included |
| `WordList.ParseExample` | app.py:12-18 | `"cat, dog\n\nfish"` parses to `["cat", "dog", "fish"]` |
| `WordList.TwoWordsParse` | app.py:12-18 | `"apple, banana"` parses to `["apple", "banana"]` |
| `Spelling.Lower` | app.py:163 | lowering keeps the length and lowers each character in place |
| `Spelling.SameIgnoringCaseLetterwise` | app.py:163 | the comparison `SameIgnoringCase` (both strings lowered, then compared) holds exactly when answer and word have the same length and agree character by character up to ASCII case |
| `Spelling.CaseExamples` | app.py:163 | "Cat" matches "cat"; "Cats" does not |
| `DrillSession.RemoveAt` | app.py:138 | `pop(i)` leaves one word fewer, the words before `i` in place, the words after it shifted down by one, and the popped word is the only one missing from the multiset |
| `DrillSession.SubmitList` | app.py:103-108 | empty text leaves the state as it is; non-empty text sets the pool to its parse; the word in hand, the flag and the key are never changed |
| `DrillSession.SelectWord` | app.py:131-144 | when a word is due and the pool is non-empty: the word at `i` is drawn and put in hand, the pool is the old pool with index `i` popped (one copy of the drawn word fewer as a multiset), the flag goes down, the key is kept; when a word is due and the pool is empty: completion, state unchanged; otherwise the word in hand is kept, state unchanged |
| `DrillSession.CheckSpelling` | app.py:161-184 | the flag becomes true exactly when the answer matches the word in hand up to ASCII case; the key grows by one exactly then; the pool and the word in hand are unchanged |
| `DrillSession.ExercisePass` | app.py:117-184 | one pass of the Exercise tab: it reports completion exactly when a new word is due and the pool is empty, and then changes nothing; otherwise a word is in hand afterwards; the check passes exactly when the button was clicked and the answer matches the word in hand; the key grows by one exactly on a passed check; after a failed check the same word stays in hand |
| `DrillSession.FailedCheckKeepsWord` | app.py:131-184 | a wrong answer for the word in hand leaves the state unchanged: the pool does not shrink and the same word is tested again |
| `DrillSession.PassKeepsTally` | app.py:131-177 | one pass preserves the drill's bookkeeping: the pool plus the words drawn make up the submitted list, the key counts passed checks, and the word in hand is the last one drawn |
| `DrillSession.ReplayKeepsTally` | app.py:131-177 | the same bookkeeping holds after any sequence of passes |
| `DrillSession.Exhaustion` | app.py:131-178 | from a list of N words: the pool plus the drawn words always equal the list as a multiset (each word is drawn once, and a failed check never puts it back); the key grows by the number of passed checks; at most N checks pass; the drill is finished exactly when N checks have passed, and then the words drawn are the whole list |
| `DrillSession.PerfectDrill` | app.py:131-178 | a speller who never errs finishes the drill of N words in exactly 2N passes: for each word, a draw with no click and then a click with the word itself. All N checks pass, the words are drawn in list order, the drill is finished and the key advances by N |
| `DrillSession.PerfectRunsFeasible` | app.py:131-178 | the perfect speller's passes are ones the program can produce: every draw comes on a pass without a click |
| `DrillSession.PerfectReplay` | app.py:131-178 | the perfect speller's passes can all be taken, and they draw the words in list order |
| `DrillSession.PerfectFinal` | app.py:131-178 | the perfect speller's drill ends with the pool empty, the last word in hand, the flag up and the key advanced by one per word |
| `DrillSession.DrillExample` | app.py:103-184 | for "apple, banana": opening the tab draws banana; "banan" fails and "banana" passes; the rerun draws apple; "Apple" passes; the next rerun reports completion. Each draw comes on a pass without a click; pool, word in hand, flag and key are as expected at every step |
| `DrillSession.Session.constructor` | app.py:123-128 | a new session has no list, no word in hand, the flag down and the key at 0 |
| `DrillSession.Session.Submit` | app.py:100-108 | non-empty text replaces the pool with its parse; empty text changes nothing; the word in hand, the flag and the key never change |
| `DrillSession.Session.Select` | app.py:131-144 | when a word is due and the pool is non-empty: the word at index `i` is returned and put in hand, the pool loses exactly that index, the flag goes down, and the key is unchanged; when a word is due and the pool is empty: completion, and nothing changes; otherwise the word in hand is kept, and nothing changes |
| `DrillSession.Session.Check` | app.py:161-184 | the answer is correct if and only if it equals the word in hand once both are lowered; the flag becomes that verdict; the key grows by one exactly when correct; the pool and the word in hand are unchanged; "all spelled" is reported exactly when correct with an empty pool |
| `DrillSession.Session.Exercise` | app.py:117-184 | one pass of the Exercise tab on the object has exactly the effect and outcome of `ExercisePass` |

## Left out

- `check_word` (app.py:22-52) and `pronounce_word` (app.py:56-65) are not modelled. They call a language model and a text-to-speech service over the network. Neither result affects the session state.
- The audio file written and read back (app.py:65, 152-154) is not modelled. It is file I/O with no effect on the state.
- Streamlit rendering is not modelled: page setup, markdown, sidebar, menu, text widgets, success and error messages, balloons, `st.secrets`, `st.cache_data.clear` and `st.rerun`. The messages appear as the `Selection` and `Verdict` outcomes. The implicit re-run is replaced by explicit calls.
- Which menu tab is shown (app.py:91-95, 110) is not modelled. The caller picks `Submit` or `Exercise`.
- `random.randrange` (app.py:135) is replaced by an index the caller supplies, constrained to be one it could return.
- `WordList.IsDelimiter` treats `\s` as ASCII whitespace only: space, tab, line feed, carriage return, vertical tab, form feed. Python's `\s` also matches `\x1c`-`\x1f`, `\x85`, `\xa0` and the other Unicode spaces.
- `Spelling.Lower` lowers only ASCII capitals. Python's `str.lower` also lowers non-ASCII letters, and a few of them change length.
- `DrillSession.Session.Select` requires that a list has been submitted. Without one, app.py:133 reads `words` before it is assigned (app.py:117-120), and the script stops with an error.
- `DrillSession.Session.Check` requires that a word is in hand and that a list exists. In the source, the check is only reached after a selection step, which ensures both.
- `DrillSession.Session.constructor` sets `input_key` and `correct_spelling` at creation. The source sets them the first time the Exercise tab runs (app.py:123-128). Nothing reads them before that, so the behaviour is the same.
- The widget key `spell_input_<input_key>` (app.py:157) is not modelled beyond the counter itself. It only makes the text box start blank.
