/** Whitespace flattening with a line map. */
module Flatten {

  /** `str.isspace` of one character. */
  predicate IsSpace(c: char) {
    var n := c as int;
    || 9 <= n <= 13 || 28 <= n <= 32 || n == 0x85 || n == 0xA0 || n == 0x1680 || 0x2000 <= n <= 0x200A
    || n == 0x2028 || n == 0x2029 || n == 0x202F || n == 0x205F || n == 0x3000
  }

  /** The white space of Python's `str`: these code points and no others. */
  lemma SpaceIff(c: char)
    ensures IsSpace(c) <==>
      c as int in {9, 10, 11, 12, 13, 28, 29, 30, 31, 32, 0x85, 0xA0, 0x1680, 0x2000, 0x2001, 0x2002, 0x2003, 0x2004,
                   0x2005, 0x2006, 0x2007, 0x2008, 0x2009, 0x200A, 0x2028, 0x2029, 0x202F, 0x205F, 0x3000}
  {
  }

  // ─── the simple form ───────────────────────────────────────────────────────

  /** Length of the leading run of non-space characters. */
  function WordLen(s: string): (n: nat)
    ensures n <= |s| && (forall i :: 0 <= i < n ==> !IsSpace(s[i])) && (n < |s| ==> IsSpace(s[n]))
  {
    if s == "" || IsSpace(s[0]) then 0 else 1 + WordLen(s[1..])
  }

  /** `str.split()`: the maximal runs of non-space characters, in order. */
  function Words(s: string): (ws: seq<string>)
    ensures forall i :: 0 <= i < |ws| ==> Word(ws[i])
    decreases |s|
  {
    if s == "" then []
    else if IsSpace(s[0]) then Words(s[1..])
    else [s[..WordLen(s)]] + Words(s[WordLen(s)..])
  }

  ghost predicate Word(w: string) {
    w != "" && forall i :: 0 <= i < |w| ==> !IsSpace(w[i])
  }

  /** `" ".join(words)`. */
  function Join(ws: seq<string>): string {
    if ws == [] then "" else if |ws| == 1 then ws[0] else ws[0] + " " + Join(ws[1..])
  }

  /** `line_of`: one more than the newlines before `p`. */
  function LineOf(text: string, p: nat): (n: nat)
    requires p <= |text|
    ensures n >= 1
  {
    if p == 0 then 1 else LineOf(text, p - 1) + if text[p - 1] == '\n' then 1 else 0
  }

  /** The newlines before `p`. */
  ghost function Newlines(text: string, p: nat): set<nat>
    requires p <= |text|
  {
    set q: nat | q < p && text[q] == '\n'
  }

  /** The line of a position is one more than the number of newlines before it. */
  lemma {:induction false} LineOfCounts(text: string, p: nat)
    requires p <= |text|
    ensures LineOf(text, p) == 1 + |Newlines(text, p)|
    decreases p
  {
    if p > 0 {
      LineOfCounts(text, p - 1);
      if text[p - 1] == '\n' {
        assert Newlines(text, p) == Newlines(text, p - 1) + {p - 1};
      } else {
        assert Newlines(text, p) == Newlines(text, p - 1);
      }
    }
  }

  lemma {:induction false} LineOfMonotone(text: string, p: nat, q: nat)
    requires p <= q <= |text|
    ensures LineOf(text, p) <= LineOf(text, q)
    decreases q
  {
    if p < q { LineOfMonotone(text, p, q - 1); }
  }

  // ─── one character more ────────────────────────────────────────────────────

  lemma {:induction false} WordLenIs(s: string, n: nat)
    requires n <= |s| && (forall i :: 0 <= i < n ==> !IsSpace(s[i])) && (n < |s| ==> IsSpace(s[n]))
    ensures WordLen(s) == n
  {
  }

  lemma {:induction false} WordsSpace(s: string, c: char)
    requires IsSpace(c)
    ensures Words(s + [c]) == Words(s)
    decreases |s|
  {
    var t := s + [c];
    if s == "" {
      assert t[1..] == "";
    } else if IsSpace(s[0]) {
      assert t[1..] == s[1..] + [c];
      WordsSpace(s[1..], c);
    } else {
      var n := WordLen(s);
      assert n > 0;
      WordLenIs(t, n);
      assert t[..n] == s[..n] && t[n..] == s[n..] + [c];
      WordsSpace(s[n..], c);
    }
  }

  /** `s` ends inside a word. */
  ghost predicate Open(s: string) {
    s != "" && !IsSpace(s[|s| - 1])
  }

  /** The words once a non-space character follows: the last one grown, or a new one. */
  ghost function Grown(ws: seq<string>, open: bool, c: char): seq<string> {
    if open && ws != [] then GrowLast(ws, c) else ws + [[c]]
  }

  ghost function GrowLast(ws: seq<string>, c: char): seq<string>
    requires ws != []
  {
    ws[..|ws| - 1] + [ws[|ws| - 1] + [c]]
  }

  lemma GrownCons(w: string, rest: seq<string>, open: bool, c: char)
    requires open ==> rest != []
    ensures Grown([w] + rest, open, c) == [w] + Grown(rest, open, c)
  {
    if open {
      assert ([w] + rest)[..|rest|] == [w] + rest[..|rest| - 1];
    } else {
      assert [w] + rest + [[c]] == [w] + (rest + [[c]]);
    }
  }

  lemma {:induction false} WordsFirst(s: string, n: nat)
    requires 0 < n <= |s| && n == WordLen(s)
    ensures Words(s) == [s[..n]] + Words(s[n..])
  {
  }

  lemma {:induction false} OneWord(s: string)
    requires Word(s)
    ensures Words(s) == [s]
  {
    WordLenIs(s, |s|);
    assert s[..|s|] == s && s[|s|..] == "";
  }

  lemma {:induction false} WordsChar(s: string, c: char)
    requires !IsSpace(c)
    ensures Words(s + [c]) == Grown(Words(s), Open(s), c)
    ensures Open(s) ==> Words(s) != []
    decreases |s|
  {
    var t, n := s + [c], WordLen(s);
    if n == |s| {
      OneWord(t);
      if s != "" { OneWord(s); }
    } else if n == 0 {
      assert t[1..] == s[1..] + [c];
      WordsChar(s[1..], c);
    } else {
      WordLenIs(t, n);
      WordsFirst(s, n);
      WordsFirst(t, n);
      assert t[..n] == s[..n] && t[n..] == s[n..] + [c];
      WordsChar(s[n..], c);
      GrownCons(s[..n], Words(s[n..]), Open(s), c);
    }
  }

  lemma {:induction false} JoinSnoc(ws: seq<string>, w: string)
    ensures Join(ws + [w]) == if ws == [] then w else Join(ws) + " " + w
    decreases |ws|
  {
    var all := ws + [w];
    if |ws| == 1 {
      assert all[1..] == [w];
    } else if |ws| > 1 {
      assert all[1..] == ws[1..] + [w];
      JoinSnoc(ws[1..], w);
      assert ws[0] + " " + (Join(ws[1..]) + " " + w) == ws[0] + " " + Join(ws[1..]) + " " + w;
    }
  }

  lemma {:induction false} JoinGrow(init: seq<string>, w: string, c: char)
    ensures Join(init + [w + [c]]) == Join(init + [w]) + [c]
  {
    JoinSnoc(init, w);
    JoinSnoc(init, w + [c]);
    if init != [] {
      assert Join(init) + " " + (w + [c]) == Join(init) + " " + w + [c];
    }
  }

  lemma {:induction false} JoinEmpty(ws: seq<string>)
    requires forall i :: 0 <= i < |ws| ==> Word(ws[i])
    ensures Join(ws) == "" <==> ws == []
  {
    if ws != [] { assert Word(ws[0]); }
  }

  // ─── the loop ──────────────────────────────────────────────────────────────

  /**
   * Flat character `i` comes from text position `from[i]` and carries that position's line; a joining
   * space is filed under the character behind it.
   */
  ghost predicate MappedAt(text: string, flat: string, lines: seq<nat>, from: seq<nat>, i: nat)
    requires |lines| == |from| == |flat| && i < |flat|
  {
    && from[i] < |text| && lines[i] == LineOf(text, from[i])
    && if IsSpace(flat[i]) then flat[i] == ' ' && i + 1 < |flat| && from[i] == from[i + 1]
       else flat[i] == text[from[i]] && (i + 1 < |flat| ==> from[i] < from[i + 1])
  }

  ghost predicate Mapped(text: string, flat: string, lines: seq<nat>, from: seq<nat>) {
    |lines| == |from| == |flat| && forall i :: 0 <= i < |flat| ==> MappedAt(text, flat, lines, from, i)
  }

  /**
   * The flat text without reference to words: it starts with no space, a space stands exactly where
   * something was left out between two characters, and never two of them in a row.
   */
  ghost predicate TightAt(flat: string, from: seq<nat>, i: nat)
    requires |from| == |flat| && i < |flat|
  {
    if i == 0 then !IsSpace(flat[i])
    else if IsSpace(flat[i]) then !IsSpace(flat[i - 1]) && from[i - 1] + 1 < from[i]
    else IsSpace(flat[i - 1]) || from[i] == from[i - 1] + 1
  }

  ghost predicate Tight(flat: string, from: seq<nat>) {
    |from| == |flat| && forall i :: 0 <= i < |flat| ==> TightAt(flat, from, i)
  }

  /** Nothing but white space was left out of the first `n` characters. */
  ghost predicate Complete(text: string, from: seq<nat>, n: nat)
    requires n <= |text|
  {
    forall p :: 0 <= p < n && !IsSpace(text[p]) ==> p in from
  }

  lemma {:induction false} TightSnoc(flat: string, from: seq<nat>, c: char, p: nat)
    requires Tight(flat, from) && !IsSpace(c)
    requires flat != "" ==> from[|from| - 1] + 1 == p && !IsSpace(flat[|flat| - 1])
    ensures Tight(flat + [c], from + [p])
  {
    forall i | 0 <= i < |flat| + 1 ensures TightAt(flat + [c], from + [p], i) {
      if i < |flat| { assert TightAt(flat, from, i); }
    }
  }

  lemma {:induction false} TightSpaced(flat: string, from: seq<nat>, c: char, p: nat)
    requires Tight(flat, from) && !IsSpace(c)
    requires flat != "" && from[|from| - 1] + 1 < p && !IsSpace(flat[|flat| - 1])
    ensures Tight(flat + " " + [c], from + [p] + [p])
  {
    forall i | 0 <= i < |flat| + 2 ensures TightAt(flat + " " + [c], from + [p] + [p], i) {
      if i < |flat| { assert TightAt(flat, from, i); }
    }
  }

  lemma {:induction false} MappedSnoc(text: string, flat: string, lines: seq<nat>, from: seq<nat>, p: nat)
    requires Mapped(text, flat, lines, from) && p < |text| && !IsSpace(text[p])
    requires forall i :: 0 <= i < |from| ==> from[i] < p
    ensures Mapped(text, flat + [text[p]], lines + [LineOf(text, p)], from + [p])
  {
    var flat', lines', from' := flat + [text[p]], lines + [LineOf(text, p)], from + [p];
    forall i | 0 <= i < |flat'| ensures MappedAt(text, flat', lines', from', i) {
      if i < |flat| { assert MappedAt(text, flat, lines, from, i); }
    }
  }

  lemma {:induction false} MappedSpaced(text: string, flat: string, lines: seq<nat>, from: seq<nat>, p: nat)
    requires Mapped(text, flat, lines, from) && p < |text| && !IsSpace(text[p])
    requires forall i :: 0 <= i < |from| ==> from[i] < p
    ensures var n := LineOf(text, p); Mapped(text, flat + " " + [text[p]], lines + [n] + [n], from + [p] + [p])
  {
    var n := LineOf(text, p);
    var flat', lines', from' := flat + " " + [text[p]], lines + [n] + [n], from + [p] + [p];
    forall i | 0 <= i < |flat'| ensures MappedAt(text, flat', lines', from', i) {
      if i < |flat| { assert MappedAt(text, flat, lines, from, i); }
    }
  }

  /** What the loop has behind it after the first `n` characters. */
  ghost predicate Along(text: string, flat: string, lines: seq<nat>, from: seq<nat>, n: nat)
    requires n <= |text|
  {
    && Mapped(text, flat, lines, from) && Tight(flat, from) && Complete(text, from, n)
    && (forall k :: 0 <= k < |from| ==> from[k] < n)
    && (flat != "" ==> !IsSpace(flat[|flat| - 1]))
    && (n > 0 && !IsSpace(text[n - 1]) ==> flat != "" && from[|from| - 1] == n - 1)
  }

  lemma {:induction false} AlongSnoc(text: string, flat: string, lines: seq<nat>, from: seq<nat>, n: nat)
    requires n < |text| && Along(text, flat, lines, from, n) && !IsSpace(text[n])
    requires flat != "" ==> n > 0 && !IsSpace(text[n - 1])
    ensures Along(text, flat + [text[n]], lines + [LineOf(text, n)], from + [n], n + 1)
  {
    MappedSnoc(text, flat, lines, from, n);
    TightSnoc(flat, from, text[n], n);
  }

  lemma {:induction false} AlongSpaced(text: string, flat: string, lines: seq<nat>, from: seq<nat>, n: nat)
    requires 0 < n < |text| && Along(text, flat, lines, from, n) && !IsSpace(text[n]) && IsSpace(text[n - 1])
    requires flat != ""
    ensures var l := LineOf(text, n); Along(text, flat + " " + [text[n]], lines + [l] + [l], from + [n] + [n], n + 1)
  {
    assert MappedAt(text, flat, lines, from, |flat| - 1);
    MappedSpaced(text, flat, lines, from, n);
    TightSpaced(flat, from, text[n], n);
  }

  ghost predicate Pending(text: string, flat: string, n: nat)
    requires n <= |text|
  {
    flat != "" && n > 0 && IsSpace(text[n - 1])
  }

  /** The loop after `n` characters: the words so far joined, the line and the pending space. */
  ghost predicate Reached(text: string, flat: string, lines: seq<nat>, from: seq<nat>, line: nat, pending: bool, n: nat)
  {
    && n <= |text| && flat == Join(Words(text[..n])) && Along(text, flat, lines, from, n)
    && line == LineOf(text, n) && pending == Pending(text, flat, n)
  }

  lemma {:induction false} FlatChar(s: string, c: char)
    requires !IsSpace(c)
    ensures Join(Words(s + [c])) ==
      Join(Words(s)) + (if Join(Words(s)) != "" && IsSpace(s[|s| - 1]) then " " + [c] else [c])
    ensures Join(Words(s)) != "" ==> s != ""
  {
    WordsChar(s, c);
    JoinEmpty(Words(s));
    if s == "" || IsSpace(s[|s| - 1]) {
      JoinNew(Words(s), c);
    } else {
      JoinGrown(Words(s), c);
    }
  }

  lemma {:induction false} ReachedSpace(text: string, flat: string, lines: seq<nat>, from: seq<nat>, line: nat,
                                        pending: bool, n: nat)
    requires n < |text| && Reached(text, flat, lines, from, line, pending, n) && IsSpace(text[n])
    ensures Reached(text, flat, lines, from, LineOf(text, n + 1), flat != "", n + 1)
  {
    assert text[..n + 1] == text[..n] + [text[n]];
    WordsSpace(text[..n], text[n]);
  }

  lemma {:induction false} ReachedChar(text: string, flat: string, lines: seq<nat>, from: seq<nat>, line: nat, n: nat)
    requires n < |text| && Reached(text, flat, lines, from, line, false, n) && !IsSpace(text[n])
    ensures Reached(text, flat + [text[n]], lines + [line], from + [n], line, false, n + 1)
  {
    assert text[..n + 1] == text[..n] + [text[n]];
    FlatChar(text[..n], text[n]);
    AlongSnoc(text, flat, lines, from, n);
  }

  lemma {:induction false} ReachedWord(text: string, flat: string, lines: seq<nat>, from: seq<nat>, line: nat, n: nat)
    requires n < |text| && Reached(text, flat, lines, from, line, true, n) && !IsSpace(text[n])
    ensures Reached(text, flat + " " + [text[n]], lines + [line] + [line], from + [n] + [n], line, false, n + 1)
  {
    assert text[..n + 1] == text[..n] + [text[n]];
    FlatChar(text[..n], text[n]);
    assert flat + (" " + [text[n]]) == flat + " " + [text[n]];
    AlongSpaced(text, flat, lines, from, n);
  }

  /**
   * `flatten_with_lines`: the words joined by single spaces; every character knows the line it came
   * from, and a joining space the line of the word behind it.
   */
  method FlattenWithLines(text: string) returns (flat: string, lines: seq<nat>, ghost from: seq<nat>)
    ensures flat == Join(Words(text))
    ensures Mapped(text, flat, lines, from) && Tight(flat, from) && Complete(text, from, |text|)
  {
    flat, lines, from := "", [], [];
    var line: nat, pendingSpace := 1, false;
    for i := 0 to |text|
      invariant Reached(text, flat, lines, from, line, pendingSpace, i)
    {
      var ch := text[i];
      if ch == '\n' { line := line + 1; }
      if IsSpace(ch) {
        ReachedSpace(text, flat, lines, from, LineOf(text, i), pendingSpace, i);
        pendingSpace := flat != "";
      } else {
        if pendingSpace {
          ReachedWord(text, flat, lines, from, line, i);
          flat, lines, from := flat + " ", lines + [line], from + [i];
          pendingSpace := false;
        } else {
          ReachedChar(text, flat, lines, from, line, i);
        }
        flat, lines, from := flat + [ch], lines + [line], from + [i];
      }
    }
    assert text[..|text|] == text;
  }


  lemma {:induction false} JoinNew(ws: seq<string>, c: char)
    ensures Join(ws + [[c]]) == Join(ws) + if ws == [] then [c] else " " + [c]
  {
    JoinSnoc(ws, [c]);
    if ws == [] {
      assert Join(ws) + [c] == [c];
    } else {
      assert Join(ws) + " " + [c] == Join(ws) + (" " + [c]);
    }
  }

  lemma {:induction false} JoinGrown(ws: seq<string>, c: char)
    requires ws != []
    ensures Join(GrowLast(ws, c)) == Join(ws) + [c]
  {
    var init, w := ws[..|ws| - 1], ws[|ws| - 1];
    assert ws == init + [w];
    JoinGrow(init, w, c);
  }

  // ─── what the map and the text satisfy ─────────────────────────────────────

  /** The line map never goes back. */
  lemma {:induction false} LinesAscend(text: string, flat: string, lines: seq<nat>, from: seq<nat>, i: nat, j: nat)
    requires Mapped(text, flat, lines, from) && i <= j < |flat|
    ensures lines[i] <= lines[j]
    decreases j
  {
    if i < j {
      LinesAscend(text, flat, lines, from, i, j - 1);
      assert MappedAt(text, flat, lines, from, j - 1) && MappedAt(text, flat, lines, from, j);
      LineOfMonotone(text, from[j - 1], from[j]);
    }
  }

  lemma {:induction false} WordsCons(w: string, s: string)
    requires Word(w) && (s == "" || IsSpace(s[0]))
    ensures Words(w + s) == [w] + Words(s)
  {
    var t := w + s;
    WordLenIs(t, |w|);
    assert t[..|w|] == w && t[|w|..] == s;
  }

  /** Splitting what was joined gives the words back. */
  lemma {:induction false} WordsOfJoin(ws: seq<string>)
    requires forall i :: 0 <= i < |ws| ==> Word(ws[i])
    ensures Words(Join(ws)) == ws
    decreases |ws|
  {
    if |ws| == 1 {
      WordsCons(ws[0], "");
      assert ws[0] + "" == ws[0];
    } else if |ws| > 1 {
      var rest := " " + Join(ws[1..]);
      WordsCons(ws[0], rest);
      assert ws[0] + rest == Join(ws);
      assert rest[1..] == Join(ws[1..]);
      WordsOfJoin(ws[1..]);
    }
  }

  /** Flattening flat text changes nothing. */
  lemma {:induction false} FlattenTwice(text: string)
    ensures Join(Words(Join(Words(text)))) == Join(Words(text))
  {
    WordsOfJoin(Words(text));
  }
}
