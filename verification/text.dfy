/** The tokenizer every directive cell goes through: `str.trim().split(/\s+/)`.
    JavaScript's `trim` and the regular-expression class `\s` use the same set of
    white-space characters, modelled by `IsSpace`. */
module Text {
  import opened Results

  /** ECMAScript WhiteSpace and LineTerminator code points. */
  predicate IsSpace(c: char) {
    || c == ' '
    || '\t' <= c <= '\r'                 // tab, line feed, vertical tab, form feed, carriage return
    || c == '\U{00A0}' || c == '\U{1680}'
    || '\U{2000}' <= c <= '\U{200A}'
    || c == '\U{2028}' || c == '\U{2029}' || c == '\U{202F}'
    || c == '\U{205F}' || c == '\U{3000}' || c == '\U{FEFF}'
  }

  predicate NoSpace(s: string) {
    forall i :: 0 <= i < |s| ==> !IsSpace(s[i])
  }

  predicate AllSpace(s: string) {
    forall i :: 0 <= i < |s| ==> IsSpace(s[i])
  }

  /** Printable ASCII other than the space, as in every directive keyword. */
  predicate IsVisibleAscii(s: string) {
    forall i :: 0 <= i < |s| ==> '!' <= s[i] <= '~'
  }

  lemma VisibleAsciiIsToken(s: string)
    requires s != [] && IsVisibleAscii(s)
    ensures IsToken(s)
  {
  }

  /** Neither starts nor ends with white space. */
  predicate IsTrimmed(s: string) {
    s == [] || (!IsSpace(s[0]) && !IsSpace(s[|s| - 1]))
  }

  /** A token of a split: non-empty and free of white space. */
  predicate IsToken(s: string) {
    s != [] && NoSpace(s)
  }

  /** Drops the leading white space, and nothing else. */
  function TrimStart(s: string): (r: string)
    ensures |r| <= |s| && r == s[|s| - |r|..]
    ensures AllSpace(s[..|s| - |r|])
    ensures r == [] || !IsSpace(r[0])
  {
    if s != [] && IsSpace(s[0]) then
      var r := TrimStart(s[1..]);
      assert s[..|s| - |r|] == [s[0]] + s[1..][..|s| - 1 - |r|];
      r
    else s
  }

  /** Drops the trailing white space, and nothing else. */
  function TrimEnd(s: string): (r: string)
    ensures |r| <= |s| && r == s[..|r|]
    ensures AllSpace(s[|r|..])
    ensures r == [] || !IsSpace(r[|r| - 1])
  {
    if s != [] && IsSpace(s[|s| - 1]) then
      var r := TrimEnd(s[..|s| - 1]);
      assert s[|r|..] == s[..|s| - 1][|r|..] + [s[|s| - 1]];
      r
    else s
  }

  /** `String.prototype.trim`. */
  function Trim(s: string): (r: string)
    ensures IsTrimmed(r)
    ensures r == [] <==> AllSpace(s)
    ensures IsTrimmed(s) ==> r == s
  {
    var front := TrimStart(s);
    var r := TrimEnd(front);
    assert r == [] ==> AllSpace(s) by {
      if r == [] {
        assert front[0..] == front;
        assert s[..|s|] == s;
      }
    }
    r
  }

  /** Trimming the front of a string that ends in a non-space keeps that end. */
  lemma {:induction false} TrimStartKeepsEnd(s: string)
    requires s != [] && !IsSpace(s[|s| - 1])
    ensures TrimStart(s) != [] && TrimStart(s)[|TrimStart(s)| - 1] == s[|s| - 1]
  {
    if IsSpace(s[0]) {
      assert s[1..][|s| - 2] == s[|s| - 1];
      TrimStartKeepsEnd(s[1..]);
    }
  }

  lemma {:induction false} TrimStartSkips(w: string, s: string)
    requires AllSpace(w)
    requires s == [] || !IsSpace(s[0])
    ensures TrimStart(w + s) == s
  {
    if w == [] {
      assert w + s == s;
    } else {
      assert (w + s)[1..] == w[1..] + s;
      TrimStartSkips(w[1..], s);
    }
  }

  lemma {:induction false} TrimEndSkips(s: string, w: string)
    requires AllSpace(w)
    requires s == [] || !IsSpace(s[|s| - 1])
    ensures TrimEnd(s + w) == s
    decreases |w|
  {
    if w == [] {
      assert s + w == s;
    } else {
      var w' := w[..|w| - 1];
      assert (s + w)[..|s + w| - 1] == s + w';
      TrimEndSkips(s, w');
    }
  }

  /** White space around a trimmed string is exactly what `trim` removes. */
  lemma TrimPadded(before: string, s: string, after: string)
    requires AllSpace(before) && AllSpace(after)
    requires IsTrimmed(s) && s != []
    ensures Trim(before + s + after) == s
  {
    assert before + s + after == before + (s + after);
    TrimStartSkips(before, s + after);
    TrimEndSkips(s, after);
  }

  /** Length of the longest white-space-free prefix. */
  function WordLength(t: string): (n: nat)
    ensures n <= |t| && NoSpace(t[..n])
    ensures n == |t| || IsSpace(t[n])
  {
    if t == [] || IsSpace(t[0]) then 0 else 1 + WordLength(t[1..])
  }

  /** `t.split(/\s+/)`: the pieces between maximal runs of white space. A leading
      or trailing run yields an empty piece, and the empty string splits into
      the single empty piece. */
  function Split(t: string): (r: seq<string>)
    ensures |r| >= 1
    ensures forall i :: 0 <= i < |r| ==> NoSpace(r[i])
    decreases |t|
  {
    var n := WordLength(t);
    if n == |t| then [t]
    else
      var rest := TrimStart(t[n..]);
      assert |rest| < |t[n..]| by {
        assert IsSpace(t[n..][0]);
      }
      [t[..n]] + Split(rest)
  }

  /** Splitting a trimmed, non-blank string yields no empty piece. */
  lemma {:induction false} SplitTrimmed(t: string)
    requires IsTrimmed(t) && t != []
    ensures forall i :: 0 <= i < |Split(t)| ==> Split(t)[i] != []
    decreases |t|
  {
    var n := WordLength(t);
    if n < |t| {
      var rest := TrimStart(t[n..]);
      assert t[n..][|t[n..]| - 1] == t[|t| - 1];
      TrimStartKeepsEnd(t[n..]);
      SplitTrimmed(rest);
      assert Split(t) == [t[..n]] + Split(rest);
    }
  }

  /** `str.trim().split(/\s+/)`: the first piece is the keyword, the others its arguments. */
  function Words(cell: string): (r: seq<string>)
    ensures |r| >= 1
  {
    Split(Trim(cell))
  }

  /** Every word is free of white space; the keyword is empty exactly for a
      blank cell, whose only word it is; otherwise no word is empty. */
  lemma WordsShape(cell: string)
    ensures forall i :: 0 <= i < |Words(cell)| ==> NoSpace(Words(cell)[i])
    ensures Words(cell)[0] == [] <==> AllSpace(cell)
    ensures AllSpace(cell) ==> Words(cell) == [[]]
    ensures !AllSpace(cell) ==> forall i :: 0 <= i < |Words(cell)| ==> IsToken(Words(cell)[i])
  {
    var t := Trim(cell);
    if t != [] {
      SplitTrimmed(t);
    }
  }

  /** A cell destructured as `const [keyword, ...args] = str.trim().split(/\s+/)`;
      the cell's own text is kept for error messages. */
  datatype Parts = Parts(cell: string, keyword: string, args: seq<string>)

  /** A blank cell has the empty keyword and no arguments; any other cell has
      a keyword and arguments that are all tokens, read in order. */
  function Destructure(cell: string): (p: Parts)
    ensures p.cell == cell
    ensures [p.keyword] + p.args == Words(cell)
    ensures AllSpace(cell) ==> p.keyword == [] && p.args == []
    ensures !AllSpace(cell) ==> IsToken(p.keyword) && forall i :: 0 <= i < |p.args| ==> IsToken(p.args[i])
  {
    var w := Words(cell);
    WordsHeadTail(cell);
    Parts(cell, w[0], w[1..])
  }

  /** The first word and the remaining words of a cell, as Destructure uses them. */
  lemma WordsHeadTail(cell: string)
    ensures AllSpace(cell) ==> Words(cell)[0] == [] && Words(cell)[1..] == []
    ensures !AllSpace(cell) ==> IsToken(Words(cell)[0])
    ensures !AllSpace(cell) ==> forall i :: 0 <= i < |Words(cell)[1..]| ==> IsToken(Words(cell)[1..][i])
  {
    var w := Words(cell);
    WordsShape(cell);
    assert forall i :: 0 <= i < |w| - 1 ==> w[1..][i] == w[i + 1];
  }

  /** A blank cell's keyword is the empty word, and it has no arguments. */
  lemma DestructureBlank(cell: string)
    requires AllSpace(cell)
    ensures Destructure(cell) == Parts(cell, [], [])
  {
    WordsShape(cell);
  }

  /** White space between two tokens: a non-empty run of white-space characters. */
  predicate IsSeparator(w: string) {
    w != [] && AllSpace(w)
  }

  /** Tokens written one after the other, each pair parted by the matching separator. */
  predicate Separated(ts: seq<string>, seps: seq<string>) {
    && |ts| >= 1 && |seps| == |ts| - 1
    && (forall i :: 0 <= i < |ts| ==> IsToken(ts[i]))
    && (forall i :: 0 <= i < |seps| ==> IsSeparator(seps[i]))
  }

  /** Writes tokens with the given separators between them: how an author may
      lay out a cell, with spaces, tabs or line breaks, one or several. */
  function JoinWith(ts: seq<string>, seps: seq<string>): string
    requires |ts| >= 1 && |seps| == |ts| - 1
  {
    if |ts| == 1 then ts[0]
    else ts[0] + seps[0] + JoinWith(ts[1..], seps[1..])
  }

  /** Dropping the first token and separator keeps the layout well formed. */
  lemma SeparatedTail(ts: seq<string>, seps: seq<string>)
    requires Separated(ts, seps) && |ts| > 1
    ensures Separated(ts[1..], seps[1..])
    ensures IsToken(ts[0]) && IsSeparator(seps[0])
  {
    assert forall i :: 0 <= i < |ts| - 1 ==> ts[1..][i] == ts[i + 1];
    assert forall i :: 0 <= i < |seps| - 1 ==> seps[1..][i] == seps[i + 1];
  }

  /** A cell written as separated tokens, possibly padded with white space,
      destructures into exactly those tokens. */
  lemma DestructureJoin(before: string, ts: seq<string>, seps: seq<string>, after: string)
    requires Separated(ts, seps)
    requires AllSpace(before) && AllSpace(after)
    ensures var cell := before + JoinWith(ts, seps) + after;
            Destructure(cell) == Parts(cell, ts[0], ts[1..])
    ensures var p := Destructure(before + JoinWith(ts, seps) + after);
            [p.keyword] + p.args == ts
  {
    JoinIsTrimmed(ts, seps);
    TrimPadded(before, JoinWith(ts, seps), after);
    SplitJoin(ts, seps);
    assert [ts[0]] + ts[1..] == ts;
  }

  lemma {:induction false} JoinIsTrimmed(ts: seq<string>, seps: seq<string>)
    requires Separated(ts, seps)
    ensures JoinWith(ts, seps) != [] && IsTrimmed(JoinWith(ts, seps))
    ensures JoinWith(ts, seps)[0] == ts[0][0]
  {
    if |ts| > 1 {
      SeparatedTail(ts, seps);
      JoinIsTrimmed(ts[1..], seps[1..]);
      var tail := JoinWith(ts[1..], seps[1..]);
      assert JoinWith(ts, seps) == ts[0] + seps[0] + tail;
      assert JoinWith(ts, seps)[|JoinWith(ts, seps)| - 1] == tail[|tail| - 1];
    }
  }

  lemma {:induction false} WordLengthOfPrefix(a: string, b: string)
    requires NoSpace(a)
    requires b == [] || IsSpace(b[0])
    ensures WordLength(a + b) == |a|
  {
    if a != [] {
      assert (a + b)[1..] == a[1..] + b;
      WordLengthOfPrefix(a[1..], b);
    } else {
      assert a + b == b;
    }
  }

  /** One step of reading back a written cell: the first token, then the rest
      after the white-space run. */
  lemma SplitCons(head: string, sep: string, tail: string)
    requires IsToken(head) && IsSeparator(sep)
    requires tail != [] && IsTrimmed(tail)
    ensures Split(head + sep + tail) == [head] + Split(tail)
  {
    var t := head + sep + tail;
    var n := |head|;
    assert t == head + (sep + tail);
    WordLengthOfPrefix(head, sep + tail);
    assert t[..n] == head;
    assert t[n..] == sep + tail;
    TrimStartSkips(sep, tail);
  }

  /** Splitting on white-space runs inverts writing tokens with any
      white-space separators. */
  lemma {:induction false} SplitJoin(ts: seq<string>, seps: seq<string>)
    requires Separated(ts, seps)
    ensures Split(JoinWith(ts, seps)) == ts
  {
    if |ts| == 1 {
      WordLengthOfPrefix(ts[0], []);
      assert ts[0] + [] == ts[0];
    } else {
      SeparatedTail(ts, seps);
      calc {
        Split(JoinWith(ts, seps));
        { SplitJoinStep(ts, seps); }
        [ts[0]] + Split(JoinWith(ts[1..], seps[1..]));
        { SplitJoin(ts[1..], seps[1..]); }
        [ts[0]] + ts[1..];
        ts;
      }
    }
  }

  /** The first token is read off, and the rest is read from the remaining text. */
  lemma SplitJoinStep(ts: seq<string>, seps: seq<string>)
    requires Separated(ts, seps) && |ts| > 1
    ensures Split(JoinWith(ts, seps)) == [ts[0]] + Split(JoinWith(ts[1..], seps[1..]))
  {
    SeparatedTail(ts, seps);
    var tail := JoinWith(ts[1..], seps[1..]);
    assert JoinWith(ts, seps) == ts[0] + seps[0] + tail;
    JoinIsTrimmed(ts[1..], seps[1..]);
    SplitCons(ts[0], seps[0], tail);
  }
}
