/** The word-list parser `create_lst_words` of app.py: split free text on
    runs of commas and whitespace, then drop the empty pieces.

    The split is the regular-expression split on the pattern `[,\s\n]+`,
    written out as a character-by-character scan.  `\s` is taken to be ASCII
    whitespace (space, tab, line feed, carriage return, vertical tab, form feed).
 */
module WordList {

  /** The character class `[,\s\n]`: a comma or an ASCII whitespace character. */
  predicate IsDelimiter(c: char) {
    c == ',' || c == ' ' || c == '\t' || c == '\n' || c == '\r'
    || c == '\U{000B}' || c == '\U{000C}'
  }

  predicate NoDelimiter(w: string) {
    forall k :: 0 <= k < |w| ==> !IsDelimiter(w[k])
  }

  predicate AllDelimiters(s: string) {
    forall k :: 0 <= k < |s| ==> IsDelimiter(s[k])
  }

  /** What the parser may hand out: a non-empty run of non-delimiter characters. */
  predicate IsWord(w: string) {
    w != [] && NoDelimiter(w)
  }

  /** The text with every delimiter character deleted. */
  function Strip(s: string): string {
    if s == [] then []
    else (if IsDelimiter(s[0]) then [] else [s[0]]) + Strip(s[1..])
  }

  /** The pieces written one after the other, with nothing between them. */
  function Concat(ws: seq<string>): string {
    if ws == [] then [] else ws[0] + Concat(ws[1..])
  }

  /** The words joined with the separator `sep` between neighbours. */
  function Join(ws: seq<string>, sep: string): string
    decreases |ws|
  {
    if |ws| == 0 then []
    else if |ws| == 1 then ws[0]
    else ws[0] + sep + Join(ws[1..], sep)
  }

  /** `re.split(r"[,\s\n]+", s)`: the pieces between maximal runs of
      delimiters.  Only the first and the last piece can be empty (when the
      text starts or ends with a delimiter, or is empty).  Where the text is
      cut is fixed by `SplitAfterWord` and `SplitAfterDelimiters`. */
  function Split(s: string): (pieces: seq<string>)
    ensures |pieces| >= 1
    ensures |pieces| == 1 <==> NoDelimiter(s)
    ensures pieces[0] == [] <==> (s == [] || IsDelimiter(s[0]))
    ensures pieces[|pieces| - 1] == [] <==> (s == [] || IsDelimiter(s[|s| - 1]))
    ensures forall k :: 0 < k < |pieces| - 1 ==> pieces[k] != []
    ensures forall k :: 0 <= k < |pieces| ==> NoDelimiter(pieces[k])
  {
    if s == [] then [[]]
    else
      var rest := Split(s[1..]);
      assert forall k :: 0 < k < |s| ==> s[k] == s[1..][k - 1];
      if IsDelimiter(s[0]) then
        // a delimiter followed by another one belongs to the same run
        if |s| > 1 && IsDelimiter(s[1]) then rest else [[]] + rest
      else
        [[s[0]] + rest[0]] + rest[1..]
  }

  /** The pieces of the split, written one after the other, are the text
      with its delimiters deleted. */
  lemma {:induction false} SplitKeepsCharacters(s: string)
    ensures Concat(Split(s)) == Strip(s)
    decreases |s|
  {
    if s != [] {
      SplitKeepsCharacters(s[1..]);
      var rest := Split(s[1..]);
      if IsDelimiter(s[0]) {
        assert Concat([[]] + rest) == Concat(rest) by {
          assert ([[]] + rest)[1..] == rest;
        }
      } else {
        var pieces := [[s[0]] + rest[0]] + rest[1..];
        assert Split(s) == pieces;
        assert pieces[1..] == rest[1..];
        assert Concat(rest) == rest[0] + Concat(rest[1..]);
        assert Concat(pieces) == [s[0]] + rest[0] + Concat(rest[1..]);
      }
    }
  }

  /** The list comprehension `[word for word in words_list if word]`.  That
      every non-empty piece is kept as often as it occurs is
      `DropEmptyCounts`; that the order is kept is `DropEmptyAppend`. */
  function DropEmpty(ws: seq<string>): (r: seq<string>)
    ensures forall k :: 0 <= k < |r| ==> r[k] != []
    ensures forall k :: 0 <= k < |r| ==> r[k] in ws
    ensures Concat(r) == Concat(ws)
  {
    if ws == [] then []
    else
      assert ws == [ws[0]] + ws[1..];
      if ws[0] == [] then DropEmpty(ws[1..])
      else
        var rest := DropEmpty(ws[1..]);
        assert ([ws[0]] + rest)[1..] == rest;
        [ws[0]] + rest
  }

  /** The filter deletes the empty pieces and nothing else: every non-empty
      piece occurs in the result exactly as often as in the input. */
  lemma DropEmptyCounts(ws: seq<string>)
    ensures forall w :: w != [] ==> multiset(DropEmpty(ws))[w] == multiset(ws)[w]
  {
    forall w | w != [] ensures multiset(DropEmpty(ws))[w] == multiset(ws)[w] {
      DropEmptyCount(ws, w);
    }
  }

  lemma {:induction false} DropEmptyCount(ws: seq<string>, w: string)
    requires w != []
    ensures multiset(DropEmpty(ws))[w] == multiset(ws)[w]
    decreases |ws|
  {
    if ws != [] {
      var tail := DropEmpty(ws[1..]);
      DropEmptyCount(ws[1..], w);
      assert ws == [ws[0]] + ws[1..];
      assert multiset(ws)[w] == multiset{ws[0]}[w] + multiset(ws[1..])[w];
      if ws[0] != [] {
        assert DropEmpty(ws) == [ws[0]] + tail;
        assert multiset(DropEmpty(ws))[w] == multiset{ws[0]}[w] + multiset(tail)[w];
      } else {
        assert DropEmpty(ws) == tail;
      }
    }
  }

  /** Filtering a concatenation concatenates the filtered parts, so the
      kept pieces stay in their order. */
  lemma {:induction false} DropEmptyAppend(a: seq<string>, b: seq<string>)
    ensures DropEmpty(a + b) == DropEmpty(a) + DropEmpty(b)
    decreases |a|
  {
    if a == [] {
      assert a + b == b;
    } else {
      var ab := a + b;
      assert ab[0] == a[0] && ab[1..] == a[1..] + b;
      DropEmptyAppend(a[1..], b);
      if a[0] != [] {
        AppendAssociative([a[0]], DropEmpty(a[1..]), DropEmpty(b));
      }
    }
  }

  /** A single piece is kept exactly when it is non-empty. */
  lemma DropEmptySingle(w: string)
    ensures DropEmpty([w]) == if w == [] then [] else [w]
  {
    assert [w][1..] == [];
  }

  lemma AppendAssociative(a: seq<string>, b: seq<string>, c: seq<string>)
    ensures a + b + c == a + (b + c)
  {
  }

  /** `create_lst_words`: every word is non-empty and free of delimiters, and
      the words written one after the other give back the input with its
      delimiters deleted, so no character is lost, moved or duplicated. */
  function CreateWordList(s: string): (words: seq<string>)
    ensures forall k :: 0 <= k < |words| ==> IsWord(words[k])
    ensures Concat(words) == Strip(s)
  {
    var pieces := Split(s);
    SplitKeepsCharacters(s);
    var words := DropEmpty(pieces);
    assert forall k :: 0 <= k < |words| ==> words[k] in pieces;
    words
  }

  /** Length of the longest prefix of `s` that holds no delimiter. */
  function WordEnd(s: string): (n: nat)
    ensures n <= |s| && NoDelimiter(s[..n])
    ensures n == |s| || IsDelimiter(s[n])
  {
    if s == [] || IsDelimiter(s[0]) then 0
    else
      var m := WordEnd(s[1..]);
      assert s[..m + 1] == [s[0]] + s[1..][..m];
      m + 1
  }

  lemma {:induction false} StripAllDelimiters(s: string)
    ensures Strip(s) == [] <==> AllDelimiters(s)
    decreases |s|
  {
    if s != [] {
      StripAllDelimiters(s[1..]);
      if AllDelimiters(s[1..]) && IsDelimiter(s[0]) {
        assert forall k :: 0 < k < |s| ==> s[k] == s[1..][k - 1];
      }
      if AllDelimiters(s) {
        assert forall k :: 0 <= k < |s[1..]| ==> s[1..][k] == s[k + 1];
      }
    }
  }

  lemma ConcatOfWords(ws: seq<string>)
    requires forall k :: 0 <= k < |ws| ==> ws[k] != []
    ensures Concat(ws) == [] <==> ws == []
  {
  }

  /** The parser returns nothing exactly when the text is empty or holds
      only commas and whitespace. */
  lemma NothingButDelimiters(s: string)
    ensures CreateWordList(s) == [] <==> AllDelimiters(s)
  {
    StripAllDelimiters(s);
    ConcatOfWords(CreateWordList(s));
  }

  /** A leading delimiter never changes the words. */
  lemma DelimiterHead(s: string)
    requires s != [] && IsDelimiter(s[0])
    ensures CreateWordList(s) == CreateWordList(s[1..])
  {
  }

  /** Nor does a leading run of delimiters. */
  lemma {:induction false} DelimiterPrefix(x: string, t: string)
    requires AllDelimiters(x)
    ensures CreateWordList(x + t) == CreateWordList(t)
    decreases |x|
  {
    if x != [] {
      var s := x + t;
      assert s[0] == x[0] && s[1..] == x[1..] + t;
      assert AllDelimiters(x[1..]) by {
        assert forall k :: 0 <= k < |x[1..]| ==> x[1..][k] == x[k + 1];
      }
      DelimiterHead(s);
      DelimiterPrefix(x[1..], t);
      assert CreateWordList(s) == CreateWordList(x[1..] + t);
    } else {
      assert x + t == t;
    }
  }

  /** A word followed by nothing, or by a delimiter, is split off whole. */
  lemma {:induction false} SplitAfterWord(w: string, t: string)
    requires IsWord(w)
    requires t == [] || IsDelimiter(t[0])
    ensures Split(w + t) == [w] + Split(t)[1..]
    decreases |w|
  {
    assert (w + t)[0] == w[0];
    assert (w + t)[1..] == w[1..] + t;
    if |w| == 1 {
      assert w[1..] + t == t;
      assert [w[0]] + Split(t)[0] == w;
    } else {
      SplitAfterWord(w[1..], t);
      assert [w[0]] + w[1..] == w;
    }
  }

  /** A run of delimiters followed by nothing, or by a word, becomes one
      empty piece in front of the pieces of the rest. */
  lemma {:induction false} SplitAfterDelimiters(x: string, t: string)
    requires x != [] && AllDelimiters(x)
    requires t == [] || !IsDelimiter(t[0])
    ensures Split(x + t) == [[]] + Split(t)
    decreases |x|
  {
    var s := x + t;
    assert s[0] == x[0] && s[1..] == x[1..] + t;
    if |x| == 1 {
      assert s[1..] == t;
    } else {
      assert s[1] == x[1];
      assert AllDelimiters(x[1..]) by {
        assert forall k :: 0 <= k < |x[1..]| ==> x[1..][k] == x[k + 1];
      }
      SplitAfterDelimiters(x[1..], t);
    }
  }

  lemma {:induction false} WordThenRest(w: string, t: string)
    requires IsWord(w)
    requires t == [] || IsDelimiter(t[0])
    ensures CreateWordList(w + t) == [w] + CreateWordList(t)
  {
    var pieces := Split(t);
    SplitAfterWord(w, t);
    assert ([w] + pieces[1..])[1..] == pieces[1..];
    assert pieces == [pieces[0]] + pieces[1..];
  }

  /** A text made of a word alone parses to that one word. */
  lemma SingleWord(w: string)
    requires IsWord(w)
    ensures CreateWordList(w) == [w]
  {
    WordThenRest(w, []);
    assert w + [] == w;
  }

  /** A run of delimiters separates: the words of `a + sep + b` are the words
      of `a` followed by the words of `b`, in order and with repeats kept. */
  lemma {:induction false} Separated(a: string, sep: string, b: string)
    requires sep != [] && AllDelimiters(sep)
    ensures CreateWordList(a + sep + b) == CreateWordList(a) + CreateWordList(b)
    decreases |a|
  {
    if a == [] {
      assert a + sep + b == sep + b;
      DelimiterPrefix(sep, b);
    } else if IsDelimiter(a[0]) {
      SeparatedAfterDelimiter(a, sep, b);
    } else {
      SeparatedAfterWord(a, sep, b);
    }
  }

  lemma {:induction false} SeparatedAfterDelimiter(a: string, sep: string, b: string)
    requires sep != [] && AllDelimiters(sep)
    requires a != [] && IsDelimiter(a[0])
    ensures CreateWordList(a + sep + b) == CreateWordList(a) + CreateWordList(b)
    decreases |a|, 0
  {
    var s := a + sep + b;
    assert s[0] == a[0] && s[1..] == a[1..] + sep + b;
    DelimiterHead(s);
    DelimiterHead(a);
    Separated(a[1..], sep, b);
  }

  lemma {:induction false} SeparatedAfterWord(a: string, sep: string, b: string)
    requires sep != [] && AllDelimiters(sep)
    requires a != [] && !IsDelimiter(a[0])
    ensures CreateWordList(a + sep + b) == CreateWordList(a) + CreateWordList(b)
    decreases |a|, 0
  {
    var w, a2 := LeadingWord(a);
    var t := a2 + sep + b;
    Regroup(w, a2, sep, b);
    assert a + sep + b == w + t;
    var rest, after := CreateWordList(a2), CreateWordList(b);
    WordThenRest(w, t);
    Separated(a2, sep, b);
    assert CreateWordList(a + sep + b) == [w] + (rest + after);
    WordThenRest(w, a2);
    assert CreateWordList(a) == [w] + rest;
    AppendAssociative([w], rest, after);
  }

  /** Cuts a text that starts with a word into that word and the rest. */
  lemma LeadingWord(a: string) returns (w: string, rest: string)
    requires a != [] && !IsDelimiter(a[0])
    ensures IsWord(w) && a == w + rest && |rest| < |a|
    ensures rest == [] || IsDelimiter(rest[0])
  {
    var n := WordEnd(a);
    w, rest := a[..n], a[n..];
    assert a == w + rest;
  }

  lemma Regroup(w: string, a2: string, sep: string, b: string)
    requires sep != []
    ensures w + a2 + sep + b == w + (a2 + sep + b)
    ensures (a2 + sep + b)[0] == if a2 == [] then sep[0] else a2[0]
  {
  }

  /** Round trip: joining words with any run of delimiters and parsing the
      result gives back exactly those words. */
  lemma {:induction false} JoinRoundTrip(ws: seq<string>, sep: string)
    requires forall k :: 0 <= k < |ws| ==> IsWord(ws[k])
    requires sep != [] && AllDelimiters(sep)
    ensures CreateWordList(Join(ws, sep)) == ws
    decreases |ws|
  {
    if |ws| == 0 {
      assert CreateWordList([]) == [];
    } else if |ws| == 1 {
      SingleWord(ws[0]);
    } else {
      Separated(ws[0], sep, Join(ws[1..], sep));
      SingleWord(ws[0]);
      JoinRoundTrip(ws[1..], sep);
      assert [ws[0]] + ws[1..] == ws;
    }
  }

  /** A sample word list: commas, a space and a blank line. */
  lemma ParseExample()
    ensures CreateWordList("cat, dog\n\nfish") == ["cat", "dog", "fish"]
  {
    var text := "cat, dog\n\nfish";
    var cat, dog, fish := "cat", "dog", "fish";
    var rest := dog + "\n\n" + fish;
    assert text == cat + ", " + rest;
    ThreeWords(cat, ", ", dog, "\n\n", fish);
  }

  /** The list "apple, banana" parses to its two words.  The text is a
      parameter fixed by the precondition, so that callers can reuse it. */
  lemma TwoWordsParse(text: string)
    requires text == "apple, banana"
    ensures CreateWordList(text) == ["apple", "banana"]
  {
    JoinRoundTrip(["apple", "banana"], ", ");
    assert Join(["apple", "banana"], ", ") == text;
  }

  lemma ThreeWords(a: string, s1: string, b: string, s2: string, c: string)
    requires IsWord(a) && IsWord(b) && IsWord(c)
    requires s1 != [] && AllDelimiters(s1) && s2 != [] && AllDelimiters(s2)
    ensures CreateWordList(a + s1 + (b + s2 + c)) == [a, b, c]
  {
    SingleWord(a);
    SingleWord(b);
    SingleWord(c);
    Separated(b, s2, c);
    Separated(a, s1, b + s2 + c);
  }
}
