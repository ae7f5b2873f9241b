/** The JavaScript string operations the source-list parser relies on:
    `String.prototype.split` with a one-character separator, the matching
    join, and `String.prototype.trim`. */
module JsStrings {

  /** Number of times `c` occurs in `s`. */
  function Occurrences(s: string, c: char): (n: nat)
    ensures n <= |s|
    ensures n == 0 <==> c !in s
  {
    if s == [] then 0
    else (if s[0] == c then 1 else 0) + Occurrences(s[1..], c)
  }

  /** `s.split(c)`: the pieces between occurrences of `c`. There is always at
      least one piece (`"".split(",")` is `[""]`), one more than there are
      separators, and no piece contains the separator. */
  function Split(s: string, c: char): (pieces: seq<string>)
    ensures |pieces| == Occurrences(s, c) + 1
    ensures forall i :: 0 <= i < |pieces| ==> c !in pieces[i]
  {
    if s == [] then [[]]
    else
      var rest := Split(s[1..], c);
      if s[0] == c then [[]] + rest
      else [[s[0]] + rest[0]] + rest[1..]
  }

  /** `pieces.join(c)`, the inverse of `Split`. */
  function Join(pieces: seq<string>, c: char): string
  {
    if pieces == [] then []
    else if |pieces| == 1 then pieces[0]
    else pieces[0] + [c] + Join(pieces[1..], c)
  }

  /** Joining the pieces of a split gives back the string. */
  lemma {:induction false} JoinSplit(s: string, c: char)
    ensures Join(Split(s, c), c) == s
  {
    if s != [] {
      var rest := Split(s[1..], c);
      JoinSplit(s[1..], c);
      if s[0] != c && |rest| > 1 {
        assert rest == [rest[0]] + rest[1..];
      }
    }
  }

  /** A piece without the separator splits into itself. */
  lemma {:induction false} SplitPiece(p: string, c: char)
    requires c !in p
    ensures Split(p, c) == [p]
  {
    if p != [] {
      SplitPiece(p[1..], c);
      assert [p[0]] + p[1..] == p;
    }
  }

  /** Splitting `p` followed by the separator splits off `p` first. */
  lemma {:induction false} SplitCons(p: string, c: char, t: string)
    requires c !in p
    ensures Split(p + [c] + t, c) == [p] + Split(t, c)
  {
    var s := p + [c] + t;
    if p == [] {
      assert s[1..] == t;
    } else {
      assert s[1..] == p[1..] + [c] + t;
      SplitCons(p[1..], c, t);
      assert [p[0]] + p[1..] == p;
    }
  }

  /** Splitting a join gives back the pieces, provided none contains the
      separator; so `Split` and `Join` are inverse on such pieces. */
  lemma {:induction false} SplitJoin(pieces: seq<string>, c: char)
    requires |pieces| > 0
    requires forall i :: 0 <= i < |pieces| ==> c !in pieces[i]
    ensures Split(Join(pieces, c), c) == pieces
  {
    if |pieces| == 1 {
      SplitPiece(pieces[0], c);
    } else {
      SplitJoin(pieces[1..], c);
      SplitCons(pieces[0], c, Join(pieces[1..], c));
      assert [pieces[0]] + pieces[1..] == pieces;
    }
  }

  /** Length of the text before the first `c`, or `|s|` when there is none. */
  function SpanUntil(s: string, c: char): (n: nat)
    ensures n <= |s|
    ensures forall i :: 0 <= i < n ==> s[i] != c
    ensures n < |s| ==> s[n] == c
  {
    if s == [] || s[0] == c then 0 else 1 + SpanUntil(s[1..], c)
  }

  /** The text before the first `c`, or all of `s` when there is none. */
  function TakeUntil(s: string, c: char): string
  {
    s[..SpanUntil(s, c)]
  }

  /** The first piece of a split is the text before the first separator, and
      when there is a separator the remaining pieces are the split of the
      text after it. */
  lemma {:induction false} SplitHeadTail(s: string, c: char)
    ensures Split(s, c)[0] == TakeUntil(s, c)
    ensures |TakeUntil(s, c)| < |s| ==>
              Split(s, c)[1..] == Split(s[|TakeUntil(s, c)| + 1..], c)
    ensures |TakeUntil(s, c)| == |s| ==> |Split(s, c)| == 1
  {
    if s != [] && s[0] != c {
      SplitHeadTail(s[1..], c);
      var k := |TakeUntil(s[1..], c)|;
      if k < |s[1..]| {
        assert s[1..][k + 1..] == s[k + 2..];
      }
    }
  }

  /** ECMAScript WhiteSpace and LineTerminator code points, the characters
      `trim` and `parseInt` skip: tab, line feed, vertical tab, form feed,
      carriage return, the space separators (category Zs), the line and
      paragraph separators and the byte-order mark. */
  predicate IsJsSpace(ch: char)
  {
    var n := ch as int;
    (0x09 <= n <= 0x0D) || n == 0x20 || n == 0xA0 || n == 0x1680 ||
    (0x2000 <= n <= 0x200A) || n == 0x2028 || n == 0x2029 || n == 0x202F ||
    n == 0x205F || n == 0x3000 || n == 0xFEFF
  }

  predicate AllSpace(s: string)
  {
    forall i :: 0 <= i < |s| ==> IsJsSpace(s[i])
  }

  /** Number of white space characters `s` starts with. */
  function LeadingSpace(s: string): (n: nat)
    ensures n <= |s|
    ensures forall i :: 0 <= i < n ==> IsJsSpace(s[i])
    ensures n < |s| ==> !IsJsSpace(s[n])
  {
    if s != [] && IsJsSpace(s[0]) then 1 + LeadingSpace(s[1..]) else 0
  }

  /** Number of white space characters `s` ends with. */
  function TrailingSpace(s: string): (n: nat)
    ensures n <= |s|
    ensures forall i :: |s| - n <= i < |s| ==> IsJsSpace(s[i])
    ensures n < |s| ==> !IsJsSpace(s[|s| - 1 - n])
  {
    if s != [] && IsJsSpace(s[|s| - 1]) then 1 + TrailingSpace(s[..|s| - 1]) else 0
  }

  /** `s.trimStart()`. */
  function TrimStart(s: string): string
  {
    s[LeadingSpace(s)..]
  }

  /** `s.trimEnd()`. */
  function TrimEnd(s: string): string
  {
    s[..|s| - TrailingSpace(s)]
  }

  /** `s.trim()`: no longer than `s`, and neither starting nor ending with
      white space (`TrimSlice` pins it down exactly). */
  function Trim(s: string): (r: string)
    ensures |r| <= |s|
    ensures r == [] || (!IsJsSpace(r[0]) && !IsJsSpace(r[|r| - 1]))
  {
    TrimEnd(TrimStart(s))
  }

  /** `trim` keeps a slice of `s` that neither starts nor ends with white
      space, and cuts off only white space on either side. */
  lemma TrimSlice(s: string)
    ensures var r := Trim(s);
      exists i :: 0 <= i <= |s| - |r| && r == s[i..i + |r|] &&
                  AllSpace(s[..i]) && AllSpace(s[i + |r|..]) &&
                  (r == [] || (!IsJsSpace(r[0]) && !IsJsSpace(r[|r| - 1])))
  {
    var i := LeadingSpace(s);
    var t := s[i..];
    var k := TrailingSpace(t);
    var r := t[..|t| - k];
    assert r == s[i..i + |r|];
    assert AllSpace(s[..i]);
    assert s[i + |r|..] == t[|r|..];
    assert AllSpace(t[|r|..]);
    if r != [] {
      assert r[0] == s[i];
      assert r[|r| - 1] == t[|t| - 1 - k];
    }
  }

  lemma TrimStartPadded(pre: string, q: string)
    requires AllSpace(pre)
    requires q == [] || !IsJsSpace(q[0])
    ensures TrimStart(pre + q) == q
  {
    var s := pre + q;
    var n := LeadingSpace(s);
    assert forall i :: 0 <= i < |pre| ==> s[i] == pre[i];
    if q != [] {
      assert s[|pre|] == q[0];
    }
    assert n == |pre|;
    assert s[|pre|..] == q;
  }

  /** Leading white space in front of a text does not change its `trimStart`. */
  lemma TrimStartSkips(pad: string, s: string)
    requires AllSpace(pad)
    ensures TrimStart(pad + s) == TrimStart(s)
  {
    var m := LeadingSpace(s);
    TrimStartPadded(pad + s[..m], s[m..]);
    assert pad + s == (pad + s[..m]) + s[m..];
  }

  lemma TrimEndPadded(q: string, post: string)
    requires AllSpace(post)
    requires q == [] || !IsJsSpace(q[|q| - 1])
    ensures TrimEnd(q + post) == q
  {
    var s := q + post;
    var n := TrailingSpace(s);
    assert s[..|q|] == q;
  }

  /** Trimming removes exactly the white space padding around a text that
      does not itself start or end with white space. */
  lemma TrimPadded(pre: string, p: string, post: string)
    requires AllSpace(pre) && AllSpace(post)
    requires p == [] || (!IsJsSpace(p[0]) && !IsJsSpace(p[|p| - 1]))
    ensures Trim(pre + p + post) == p
  {
    assert pre + p + post == pre + (p + post);
    if p == [] {
      assert p + post == post;
      TrimStartPadded(pre + post, []);
      assert pre + post + [] == pre + post;
    } else {
      TrimStartPadded(pre, p + post);
      TrimEndPadded(p, post);
    }
  }
}
