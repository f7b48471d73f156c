/** The case-insensitive comparison of line 163 of app.py, `a.lower() == b.lower()`,
    with `str.lower` restricted to ASCII letters. */
module Spelling {

  predicate IsUpper(c: char) {
    'A' <= c <= 'Z'
  }

  function LowerChar(c: char): char {
    if IsUpper(c) then (c as int + 32) as char else c
  }

  /** `s.lower()`: each character in place, capitals replaced by small letters. */
  function Lower(s: string): (r: string)
    ensures |r| == |s|
    ensures forall k :: 0 <= k < |s| ==> r[k] == LowerChar(s[k])
  {
    if s == [] then [] else [LowerChar(s[0])] + Lower(s[1..])
  }

  /** The spelling check: the answer and the word agree once both are lowered. */
  predicate SameIgnoringCase(answer: string, word: string) {
    Lower(answer) == Lower(word)
  }

  /** Two spellings agree exactly when they have the same length and agree
      letter by letter up to ASCII case. */
  lemma SameIgnoringCaseLetterwise(answer: string, word: string)
    ensures SameIgnoringCase(answer, word)
        <==> |answer| == |word| && forall k :: 0 <= k < |answer| ==> LowerChar(answer[k]) == LowerChar(word[k])
  {
  }

  /** "Cat" is a correct spelling of "cat"; "Cats" is not. */
  lemma CaseExamples()
    ensures SameIgnoringCase("Cat", "cat")
    ensures !SameIgnoringCase("Cats", "cat")
  {
  }
}

/** The session state of the drill (lines 100-108 and 117-184 of app.py).

    Streamlit re-runs `main()` from the top on every interaction; here each
    interaction is one explicit step.  The functions below give the steps on a
    value of the state, and `Session` is the object whose fields the steps
    update in place.  The random choice of `random.randrange` is the index the
    caller passes. */
module DrillSession {
  import opened WordList
  import opened Spelling

  datatype Option<T> = None | Some(value: T)

  /** The four entries of `st.session_state`.  `None` is a key not yet set. */
  datatype State = State(
    wordList: Option<seq<string>>,
    wordSelected: Option<string>,
    correctSpelling: bool,
    inputKey: nat)

  /** What the selection step at the top of the Exercise tab did. */
  datatype Selection =
    | Drew(word: string)  // a new word was popped from the pool
    | Kept                // the word in hand is tested again
    | AllSpelled          // the pool is empty: the congratulations message

  datatype Verdict = Unchecked | Correct | Incorrect

  /** The result of one pass through the Exercise tab. */
  datatype Outcome = Outcome(next: State, selection: Selection, verdict: Verdict)

  /** One pass through the Exercise tab: which index the random draw picks
      (used only when a word is drawn) and what was typed when "Check
      Spelling" was clicked (`None`: the button was not clicked). */
  datatype Run = Run(index: nat, answer: Option<string>)

  function Initial(): State {
    State(None, None, false, 0)
  }

  /** `list.pop(i)` as a value: the other words keep their order. */
  function RemoveAt(s: seq<string>, i: nat): (r: seq<string>)
    requires i < |s|
    ensures |r| == |s| - 1
    ensures forall k :: 0 <= k < i ==> r[k] == s[k]
    ensures forall k :: i <= k < |r| ==> r[k] == s[k + 1]
    ensures multiset(r) + multiset{s[i]} == multiset(s)
  {
    assert s == s[..i] + [s[i]] + s[i + 1..];
    s[..i] + s[i + 1..]
  }

  /** Clicking Submit (lines 103-108): a non-empty text replaces the pool
      with its parse; the word in hand, the flag and the key are kept. */
  function SubmitList(st: State, text: string): (r: State)
    ensures text == "" ==> r == st
    ensures text != "" ==> r.wordList == Some(CreateWordList(text))
    ensures r.wordSelected == st.wordSelected && r.correctSpelling == st.correctSpelling
    ensures r.inputKey == st.inputKey
  {
    if text == "" then st else st.(wordList := Some(CreateWordList(text)))
  }

  /** The guard of line 131: no word drawn yet, or the last one was spelled. */
  predicate NeedsWord(st: State) {
    st.wordSelected.None? || st.correctSpelling
  }

  /** A list has been submitted, and the index is one `randrange` could return. */
  predicate CanSelect(st: State, i: nat) {
    st.wordList.Some? && (NeedsWord(st) && st.wordList.value != [] ==> i < |st.wordList.value|)
  }

  /** The selection step (lines 131-144): when a word is due it pops the
      word at `i` into hand and lowers the flag, or reports that all words
      are spelled if the pool is empty; otherwise it keeps the word in hand. */
  function SelectWord(st: State, i: nat): (r: (State, Selection))
    requires CanSelect(st, i)
    ensures NeedsWord(st) && st.wordList.value != [] ==>
      && r.1 == Drew(st.wordList.value[i])
      && r.0 == State(Some(RemoveAt(st.wordList.value, i)), Some(st.wordList.value[i]), false, st.inputKey)
      && multiset(r.0.wordList.value) + multiset{r.1.word} == multiset(st.wordList.value)
    ensures NeedsWord(st) && st.wordList.value == [] ==> r == (st, AllSpelled)
    ensures !NeedsWord(st) ==> r == (st, Kept)
  {
    if !NeedsWord(st) then (st, Kept)
    else if st.wordList.value == [] then (st, AllSpelled)
    else
      var pool := st.wordList.value;
      (st.(wordList := Some(RemoveAt(pool, i)), wordSelected := Some(pool[i]), correctSpelling := false),
       Drew(pool[i]))
  }

  /** The spelling check (lines 161-184): the flag becomes the verdict of
      the case-insensitive comparison, the key moves on only when it is
      correct, and the pool and the word in hand stay as they are. */
  function CheckSpelling(st: State, answer: string): (r: State)
    requires st.wordSelected.Some?
    ensures r.correctSpelling <==> SameIgnoringCase(answer, st.wordSelected.value)
    ensures r.inputKey == st.inputKey + (if r.correctSpelling then 1 else 0)
    ensures r.wordList == st.wordList && r.wordSelected == st.wordSelected
  {
    if SameIgnoringCase(answer, st.wordSelected.value) then
      st.(correctSpelling := true, inputKey := st.inputKey + 1)
    else
      st.(correctSpelling := false)
  }

  /** The drill is over: a new word is due and the pool is empty. */
  predicate Finished(st: State) {
    NeedsWord(st) && st.wordList == Some([])
  }

  /** One pass through the Exercise tab (lines 117-184): the selection step,
      then the check when the button was clicked and the drill is not over. */
  function ExercisePass(st: State, run: Run): (out: Outcome)
    requires CanSelect(st, run.index)
    ensures out.next.wordList.Some?
    ensures out.selection.AllSpelled? <==> Finished(st)
    ensures out.selection.AllSpelled? ==> out.next == st && out.verdict.Unchecked?
    ensures !out.selection.AllSpelled? ==> out.next.wordSelected.Some?
    ensures out.verdict.Correct? <==> !Finished(st) && run.answer.Some? && SameIgnoringCase(run.answer.value, out.next.wordSelected.value)
    ensures out.next.inputKey == st.inputKey + (if out.verdict.Correct? then 1 else 0)
    ensures out.verdict.Incorrect? ==> !NeedsWord(out.next)
  {
    var (st1, selection) := SelectWord(st, run.index);
    if selection.AllSpelled? || run.answer.None? then
      Outcome(st1, selection, Unchecked)
    else
      var ok := SameIgnoringCase(run.answer.value, st1.wordSelected.value);
      Outcome(CheckSpelling(st1, run.answer.value), selection, if ok then Correct else Incorrect)
  }

  /** A wrong answer for the word in hand changes nothing: the pool does not
      shrink and the same word is tested again. */
  lemma FailedCheckKeepsWord(st: State, run: Run)
    requires CanSelect(st, run.index) && !NeedsWord(st)
    requires run.answer.Some? && !SameIgnoringCase(run.answer.value, st.wordSelected.value)
    ensures ExercisePass(st, run) == Outcome(st, Kept, Incorrect)
  {
  }

  // ---- Replaying a drill ----

  /** Every pass of `runs` picks an index `randrange` could return. */
  predicate Enabled(st: State, runs: seq<Run>)
    decreases |runs|
  {
    runs == [] || (CanSelect(st, runs[0].index) && Enabled(ExercisePass(st, runs[0]).next, runs[1..]))
  }

  /** The state after a sequence of passes, the words drawn on the way, in
      order, and the number of checks that passed. */
  datatype History = History(final: State, drawn: seq<string>, correct: nat)

  function DrawnBy(out: Outcome): seq<string> {
    if out.selection.Drew? then [out.selection.word] else []
  }

  function Replay(st: State, runs: seq<Run>): History
    requires Enabled(st, runs)
    decreases |runs|
  {
    if runs == [] then History(st, [], 0)
    else
      var out := ExercisePass(st, runs[0]);
      var h := Replay(out.next, runs[1..]);
      History(h.final, DrawnBy(out) + h.drawn, (if out.verdict.Correct? then 1 else 0) + h.correct)
  }

  /** The bookkeeping of a drill of the list `pool0` that began with input key
      `key0`: the pool and the words drawn make up `pool0` exactly; the key
      counts the passed checks; every drawn word but the one in hand has
      passed, and the word in hand is the last one drawn. */
  ghost predicate Tally(pool0: seq<string>, st: State, drawn: seq<string>, key0: nat, correct: nat) {
    && st.wordList.Some?
    && multiset(st.wordList.value) + multiset(drawn) == multiset(pool0)
    && st.inputKey == key0 + correct
    && if NeedsWord(st) then correct == |drawn|
       else correct + 1 == |drawn| && st.wordSelected == Some(drawn[|drawn| - 1])
  }

  lemma PassKeepsTally(pool0: seq<string>, st: State, drawn: seq<string>, key0: nat, correct: nat, run: Run)
    requires Tally(pool0, st, drawn, key0, correct)
    requires CanSelect(st, run.index)
    ensures var out := ExercisePass(st, run);
      Tally(pool0, out.next, drawn + DrawnBy(out), key0, correct + (if out.verdict.Correct? then 1 else 0))
  {
  }

  lemma {:induction false} ReplayKeepsTally(pool0: seq<string>, st: State, drawn: seq<string>, key0: nat, correct: nat, runs: seq<Run>)
    requires Tally(pool0, st, drawn, key0, correct)
    requires Enabled(st, runs)
    ensures var h := Replay(st, runs);
      Tally(pool0, h.final, drawn + h.drawn, key0, correct + h.correct)
    decreases |runs|
  {
    if runs == [] {
      assert drawn + [] == drawn;
    } else {
      var out := ExercisePass(st, runs[0]);
      var score := if out.verdict.Correct? then 1 else 0;
      var d := DrawnBy(out);
      PassKeepsTally(pool0, st, drawn, key0, correct, runs[0]);
      ReplayKeepsTally(pool0, out.next, drawn + d, key0, correct + score, runs[1..]);
      var h := Replay(out.next, runs[1..]);
      assert Replay(st, runs) == History(h.final, d + h.drawn, score + h.correct);
      AppendAssociative(drawn, d, h.drawn);
    }
  }

  /** Exhaustion: replay any passes from a state where a new word is due on the
      list `P`.  The words left and the words drawn always make up `P` (each
      word is drawn once, and a failed check never puts it back); the input
      key grows by the number of passed checks; at most |P| checks pass; and
      the drill is finished exactly when |P| checks have passed, at which
      point the words drawn are `P` itself, up to order. */
  lemma Exhaustion(st: State, runs: seq<Run>)
    requires st.wordList.Some? && NeedsWord(st)
    requires Enabled(st, runs)
    ensures var P, h := st.wordList.value, Replay(st, runs);
      && h.final.wordList.Some?
      && multiset(h.final.wordList.value) + multiset(h.drawn) == multiset(P)
      && h.final.inputKey == st.inputKey + h.correct
      && h.correct <= |P|
      && (Finished(h.final) <==> h.correct == |P|)
      && (h.correct == |P| ==> multiset(h.drawn) == multiset(P))
  {
    var P, h := st.wordList.value, Replay(st, runs);
    assert Tally(P, st, [], st.inputKey, 0);
    ReplayKeepsTally(P, st, [], st.inputKey, 0, runs);
    assert [] + h.drawn == h.drawn;
    var pool := h.final.wordList.value;
    assert |pool| + |h.drawn| == |P| by {
      assert |multiset(pool) + multiset(h.drawn)| == |multiset(P)|;
    }
    if h.correct == |P| {
      assert pool == [] by {
        assert |multiset(pool)| == |pool|;
      }
    }
  }

  /** The passes the program can produce.  A new word is drawn only on the
      run that opens the Exercise tab or on the one that `st.rerun()` (line
      178) starts right after a passed check; "Check Spelling" was clicked
      on neither, so a pass that draws never checks an answer. */
  predicate Feasible(st: State, runs: seq<Run>)
    decreases |runs|
  {
    runs == [] ||
      (&& CanSelect(st, runs[0].index)
       && (NeedsWord(st) ==> runs[0].answer.None?)
       && Feasible(ExercisePass(st, runs[0]).next, runs[1..]))
  }

  /** Passes are taken one at a time: a sequence that starts with `run` is
      enabled, feasible and replayed as `run` followed by the rest. */
  lemma FirstPass(st: State, run: Run, rest: seq<Run>)
    requires CanSelect(st, run.index)
    ensures var out, runs := ExercisePass(st, run), [run] + rest;
      && (Enabled(st, runs) <==> Enabled(out.next, rest))
      && (Feasible(st, runs) <==> (NeedsWord(st) ==> run.answer.None?) && Feasible(out.next, rest))
      && (Enabled(out.next, rest) ==>
            var h := Replay(out.next, rest);
            Replay(st, runs) == History(h.final, DrawnBy(out) + h.drawn, (if out.verdict.Correct? then 1 else 0) + h.correct))
  {
    var runs := [run] + rest;
    assert runs[0] == run && runs[1..] == rest;
  }

  /** A pass with no click while a word is due draws the word at `i`. */
  lemma DrawPass(st: State, i: nat)
    requires st.wordList.Some? && NeedsWord(st) && i < |st.wordList.value|
    ensures var P := st.wordList.value;
      ExercisePass(st, Run(i, None))
        == Outcome(State(Some(RemoveAt(P, i)), Some(P[i]), false, st.inputKey), Drew(P[i]), Unchecked)
  {
  }

  /** A click while a word is in hand checks the answer against it. */
  lemma CheckPass(st: State, answer: string)
    requires st.wordList.Some? && !NeedsWord(st)
    ensures var ok := SameIgnoringCase(answer, st.wordSelected.value);
      ExercisePass(st, Run(0, Some(answer)))
        == Outcome(st.(correctSpelling := ok, inputKey := st.inputKey + (if ok then 1 else 0)),
                   Kept, if ok then Correct else Incorrect)
  {
  }

  /** The passes of a speller who never errs: for each word, the pass that
      draws index 0, then the click that answers with the word itself. */
  function PerfectRuns(P: seq<string>): (r: seq<Run>)
    ensures |r| == 2 * |P|
  {
    if P == [] then [] else [Run(0, None), Run(0, Some(P[0]))] + PerfectRuns(P[1..])
  }

  /** Where the perfect drill of the pool of `st` ends: with the pool empty,
      the last word in hand, the flag up and the key moved on by one per
      word; an empty pool leaves `st` as it is. */
  function PerfectEnd(st: State): State
    requires st.wordList.Some?
  {
    var P := st.wordList.value;
    if P == [] then st else State(Some([]), Some(P[|P| - 1]), true, st.inputKey + |P|)
  }

  /** The first word of a perfect drill: drawn, then spelled, leaving the
      rest of the list with a new word due and the key one further on. */
  lemma PerfectWord(st: State, rest: seq<Run>)
    requires st.wordList.Some? && NeedsWord(st) && st.wordList.value != []
    ensures var P := st.wordList.value;
      var mid, runs := State(Some(P[1..]), Some(P[0]), true, st.inputKey + 1), [Run(0, None), Run(0, Some(P[0]))] + rest;
      && (Feasible(st, runs) <==> Feasible(mid, rest))
      && (Enabled(st, runs) <==> Enabled(mid, rest))
      && (Enabled(mid, rest) ==>
            Replay(st, runs) == History(Replay(mid, rest).final, [P[0]] + Replay(mid, rest).drawn, 1 + Replay(mid, rest).correct))
  {
    var P := st.wordList.value;
    var draw, click := Run(0, None), Run(0, Some(P[0]));
    var drawn := State(Some(P[1..]), Some(P[0]), false, st.inputKey);
    var mid := State(Some(P[1..]), Some(P[0]), true, st.inputKey + 1);
    assert [draw, click] + rest == [draw] + ([click] + rest);
    DrawPass(st, 0);
    assert RemoveAt(P, 0) == P[1..];
    assert ExercisePass(st, draw) == Outcome(drawn, Drew(P[0]), Unchecked);
    FirstPass(st, draw, [click] + rest);
    CheckPass(drawn, P[0]);
    assert ExercisePass(drawn, click) == Outcome(mid, Kept, Correct);
    FirstPass(drawn, click, rest);
    if Enabled(mid, rest) {
      var h := Replay(mid, rest);
      var h2 := Replay(drawn, [click] + rest);
      assert h2 == History(h.final, [] + h.drawn, 1 + h.correct);
      assert [] + h.drawn == h.drawn;
      assert Replay(st, [draw] + ([click] + rest)) == History(h2.final, [P[0]] + h2.drawn, 0 + h2.correct);
    }
  }

  /** The perfect speller's passes are ones the program can produce: each
      draw happens on a pass without a click. */
  lemma {:induction false} PerfectRunsFeasible(st: State)
    requires st.wordList.Some? && NeedsWord(st)
    ensures Feasible(st, PerfectRuns(st.wordList.value))
    decreases |st.wordList.value|
  {
    var P := st.wordList.value;
    if P != [] {
      var mid := State(Some(P[1..]), Some(P[0]), true, st.inputKey + 1);
      var rest := PerfectRuns(P[1..]);
      assert PerfectRuns(P) == [Run(0, None), Run(0, Some(P[0]))] + rest;
      PerfectWord(st, rest);
      PerfectRunsFeasible(mid);
    }
  }

  /** The perfect speller's passes can all be taken, and they draw the
      words of the pool in list order. */
  lemma {:induction false} PerfectReplay(st: State)
    requires st.wordList.Some? && NeedsWord(st)
    ensures var P := st.wordList.value;
      && Enabled(st, PerfectRuns(P))
      && Replay(st, PerfectRuns(P)).drawn == P
    decreases |st.wordList.value|
  {
    var P := st.wordList.value;
    if P != [] {
      var mid := State(Some(P[1..]), Some(P[0]), true, st.inputKey + 1);
      assert PerfectRuns(P) == [Run(0, None), Run(0, Some(P[0]))] + PerfectRuns(P[1..]);
      PerfectWord(st, PerfectRuns(P[1..]));
      PerfectReplay(mid);
      assert [P[0]] + P[1..] == P;
    }
  }

  /** The perfect speller's passes end in `PerfectEnd(st)`. */
  lemma {:induction false} PerfectFinal(st: State)
    requires st.wordList.Some? && NeedsWord(st)
    ensures var P := st.wordList.value;
      && Enabled(st, PerfectRuns(P))
      && Replay(st, PerfectRuns(P)).final == PerfectEnd(st)
    decreases |st.wordList.value|
  {
    var P := st.wordList.value;
    if P != [] {
      var mid := State(Some(P[1..]), Some(P[0]), true, st.inputKey + 1);
      assert PerfectRuns(P) == [Run(0, None), Run(0, Some(P[0]))] + PerfectRuns(P[1..]);
      PerfectWord(st, PerfectRuns(P[1..]));
      PerfectFinal(mid);
      assert PerfectEnd(mid) == PerfectEnd(st);
    }
  }

  /** Every round can end: with the perfect speller's passes, the drill of
      `P` ends after exactly 2|P| passes with |P| correct checks, having
      drawn the words in list order; the pool is then empty, the last word
      is in hand and the key has moved on by |P|. */
  lemma PerfectDrill(st: State)
    requires st.wordList.Some? && NeedsWord(st)
    ensures var P := st.wordList.value;
      && |PerfectRuns(P)| == 2 * |P|
      && Enabled(st, PerfectRuns(P))
      && Replay(st, PerfectRuns(P)).drawn == P
      && Replay(st, PerfectRuns(P)).correct == |P|
      && Finished(Replay(st, PerfectRuns(P)).final)
      && Replay(st, PerfectRuns(P)).final.inputKey == st.inputKey + |P|
  {
    PerfectReplay(st);
    PerfectFinal(st);
    Exhaustion(st, PerfectRuns(st.wordList.value));
  }

  /** A sample drill, pass by pass, on the list "apple, banana": the tab
      opens and banana is drawn; "banan" is checked and fails; "banana" is
      checked and passes; the rerun draws apple; "Apple" is checked and
      passes; the rerun finds the pool empty.  As in the program, each draw
      comes on a pass without a click. */
  lemma DrillExample(text: string)
    requires text == "apple, banana"
    ensures var st0 := SubmitList(Initial(), text);
      && st0.wordList == Some(["apple", "banana"])
      && var o1 := ExercisePass(st0, Run(1, None));
      && o1 == Outcome(State(Some(["apple"]), Some("banana"), false, 0), Drew("banana"), Unchecked)
      && var o2 := ExercisePass(o1.next, Run(0, Some("banan")));
      && o2 == Outcome(o1.next, Kept, Incorrect)
      && var o3 := ExercisePass(o2.next, Run(0, Some("banana")));
      && o3 == Outcome(State(Some(["apple"]), Some("banana"), true, 1), Kept, Correct)
      && var o4 := ExercisePass(o3.next, Run(0, None));
      && o4 == Outcome(State(Some([]), Some("apple"), false, 1), Drew("apple"), Unchecked)
      && var o5 := ExercisePass(o4.next, Run(0, Some("Apple")));
      && o5 == Outcome(State(Some([]), Some("apple"), true, 2), Kept, Correct)
      && ExercisePass(o5.next, Run(0, None)) == Outcome(o5.next, AllSpelled, Unchecked)
  {
    var apple, banana := "apple", "banana";
    TwoWordsParse(text);
    var st0 := SubmitList(Initial(), text);
    assert st0 == State(Some([apple, banana]), None, false, 0);
    var r1, r2, r3, r4, r5 := Run(1, None), Run(0, Some("banan")), Run(0, Some("banana")),
                              Run(0, None), Run(0, Some("Apple"));
    DrawPass(st0, 1);
    assert RemoveAt([apple, banana], 1) == [apple];
    var s1 := State(Some([apple]), Some(banana), false, 0);
    assert ExercisePass(st0, r1) == Outcome(s1, Drew(banana), Unchecked);
    CheckPass(s1, "banan");
    assert !SameIgnoringCase("banan", banana) by {
      assert |Lower("banan")| != |Lower(banana)|;
    }
    assert ExercisePass(s1, r2) == Outcome(s1, Kept, Incorrect);
    CheckPass(s1, banana);
    var s3 := State(Some([apple]), Some(banana), true, 1);
    assert ExercisePass(s1, r3) == Outcome(s3, Kept, Correct);
    DrawPass(s3, 0);
    assert RemoveAt([apple], 0) == [];
    var s4 := State(Some([]), Some(apple), false, 1);
    assert ExercisePass(s3, r4) == Outcome(s4, Drew(apple), Unchecked);
    CheckPass(s4, "Apple");
    assert SameIgnoringCase("Apple", apple) by {
      assert Lower("Apple")[0] == 'a';
    }
    var s5 := State(Some([]), Some(apple), true, 2);
    assert ExercisePass(s4, r5) == Outcome(s5, Kept, Correct);
  }

  // ---- The session object ----

  /** `st.session_state` as an object: the pool is the stored list itself, so
      the alias `words` of line 118 and the field are one and the same. */
  class Session {
    var wordList: Option<seq<string>>
    var wordSelected: Option<string>
    var correctSpelling: bool
    var inputKey: nat

    function Snapshot(): State
      reads this
    {
      State(wordList, wordSelected, correctSpelling, inputKey)
    }

    /** A fresh session: no list, no word, the flag down, the key at 0
        (lines 123-128 set the last two on first use). */
    constructor ()
      ensures Snapshot() == Initial()
    {
      wordList := None;
      wordSelected := None;
      correctSpelling := false;
      inputKey := 0;
    }

    /** Clicking Submit with `text` in the text area (lines 103-108). */
    method Submit(text: string)
      modifies this
      ensures text == "" ==> wordList == old(wordList)
      ensures text != "" ==> wordList == Some(CreateWordList(text))
      ensures wordSelected == old(wordSelected) && correctSpelling == old(correctSpelling)
      ensures inputKey == old(inputKey)
      ensures Snapshot() == SubmitList(old(Snapshot()), text)
    {
      if text != "" {
        var words := CreateWordList(text);
        wordList := Some(words);
      }
    }

    /** The selection step (lines 131-144); `i` is the value of
        `random.randrange(len(words))`. */
    method Select(i: nat) returns (selection: Selection)
      requires CanSelect(Snapshot(), i)
      modifies this
      ensures old(NeedsWord(Snapshot())) && old(wordList.value) != [] ==>
        && selection == Drew(old(wordList.value[i]))
        && wordSelected == Some(old(wordList.value[i]))
        && wordList == Some(RemoveAt(old(wordList.value), i))
        && !correctSpelling
        && inputKey == old(inputKey)
      ensures old(NeedsWord(Snapshot())) && old(wordList.value) == [] ==>
        selection == AllSpelled && Snapshot() == old(Snapshot())
      ensures !old(NeedsWord(Snapshot())) ==> selection == Kept && Snapshot() == old(Snapshot())
      ensures (Snapshot(), selection) == SelectWord(old(Snapshot()), i)
    {
      if wordSelected.None? || correctSpelling {
        var words := wordList.value;
        if words != [] {
          wordSelected := Some(words[i]);
          wordList := Some(RemoveAt(words, i));
          correctSpelling := false;
          selection := Drew(words[i]);
        } else {
          selection := AllSpelled;
        }
      } else {
        selection := Kept;
      }
    }

    /** Clicking "Check Spelling" with `answer` typed (lines 161-184).
        `allSpelled` is the test of line 169. */
    method Check(answer: string) returns (correct: bool, allSpelled: bool)
      requires wordList.Some? && wordSelected.Some?
      modifies this
      ensures wordList == old(wordList) && wordSelected == old(wordSelected)
      ensures correct <==> SameIgnoringCase(answer, wordSelected.value)
      ensures correctSpelling == correct
      ensures inputKey == old(inputKey) + (if correct then 1 else 0)
      ensures allSpelled <==> correct && wordList.value == []
      ensures Snapshot() == CheckSpelling(old(Snapshot()), answer)
    {
      correct := Lower(answer) == Lower(wordSelected.value);
      allSpelled := false;
      if correct {
        correctSpelling := true;
        allSpelled := wordList.value == [];
        inputKey := inputKey + 1;
      } else {
        correctSpelling := false;
      }
    }

    /** One pass through the Exercise tab (lines 117-184). */
    method Exercise(run: Run) returns (selection: Selection, verdict: Verdict)
      requires CanSelect(Snapshot(), run.index)
      modifies this
      ensures Outcome(Snapshot(), selection, verdict) == ExercisePass(old(Snapshot()), run)
    {
      selection := Select(run.index);
      verdict := Unchecked;
      if !selection.AllSpelled? && run.answer.Some? {
        var correct, _ := Check(run.answer.value);
        verdict := if correct then Correct else Incorrect;
      }
    }
  }
}
