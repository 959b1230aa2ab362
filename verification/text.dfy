/**
 * Styled terminal lines. The source builds its lines by wrapping text in ANSI
 * escape codes; here a line is a sequence of spans, each carrying the wrappers
 * applied to it, innermost first. Escape codes are never spelled out: only the
 * visible text and the order of wrappers are modelled.
 */
module Text {

  /** The two foreground colours the suits use. */
  datatype Color = Blue | Red

  /** A wrapper around text: a suit colour, reverse video (highlight), or the grey edge colour. */
  datatype Wrapper = Fore(color: Color) | Reverse | Grey

  datatype Span = Span(text: string, wrappers: seq<Wrapper>)

  type Line = seq<Span>

  /** What a terminal shows of a line once its escape codes are interpreted. */
  function Visible(l: Line): string
  {
    if |l| == 0 then "" else l[0].text + Visible(l[1..])
  }

  function Width(l: Line): nat
  {
    |Visible(l)|
  }

  function Plain(s: string): (l: Line)
    ensures Visible(l) == s
  {
    [Span(s, [])]
  }

  /** Wraps every span of a line in `w`, as the source's per-line f-strings do. */
  function Wrap(w: Wrapper, l: Line): (r: Line)
    ensures |r| == |l|
    ensures Visible(r) == Visible(l)
    ensures forall i :: 0 <= i < |r| ==> r[i].wrappers == l[i].wrappers + [w]
  {
    if |l| == 0 then []
    else
      var rest := Wrap(w, l[1..]);
      var r := [Span(l[0].text, l[0].wrappers + [w])] + rest;
      assert r[1..] == rest;
      r
  }

  /** `" " * n` in the source: a negative count yields the empty string. */
  function Spaces(n: int): (s: string)
    ensures |s| == if n > 0 then n else 0
    ensures forall i :: 0 <= i < |s| ==> s[i] == ' '
  {
    seq(if n > 0 then n else 0, _ => ' ')
  }

  /** Left-justify to `n` columns (Python format `<n`): pads with spaces after, never truncates. */
  function LeftJustify(s: string, n: int): (r: string)
    ensures |r| == if |s| < n then n else |s|
    ensures r[..|s|] == s
    ensures r[|s|..] == Spaces(n - |s|)
  {
    s + Spaces(n - |s|)
  }

  /** Right-justify to `n` columns (Python format `>n`): pads with spaces in front, never truncates. */
  function RightJustify(s: string, n: int): (r: string)
    ensures |r| == if |s| < n then n else |s|
    ensures r[|r| - |s|..] == s
    ensures r[..|r| - |s|] == Spaces(n - |s|)
  {
    Spaces(n - |s|) + s
  }

  lemma {:induction false} VisibleAppend(a: Line, b: Line)
    ensures Visible(a + b) == Visible(a) + Visible(b)
    decreases |a|
  {
    if |a| == 0 {
      assert a + b == b;
    } else {
      assert (a + b)[1..] == a[1..] + b;
      VisibleAppend(a[1..], b);
    }
  }

  /** `sep.join(parts)` over lines. */
  function Join(parts: seq<Line>, sep: string): Line
  {
    if |parts| == 0 then []
    else if |parts| == 1 then parts[0]
    else parts[0] + Plain(sep) + Join(parts[1..], sep)
  }

  /** Joining `n` parts of equal width `w` gives `n * w` plus `n - 1` separators. */
  lemma {:induction false} JoinWidth(parts: seq<Line>, sep: string, w: nat)
    requires |parts| >= 1
    requires forall i :: 0 <= i < |parts| ==> Width(parts[i]) == w
    ensures Width(Join(parts, sep)) == |parts| * w + (|parts| - 1) * |sep|
    decreases |parts|
  {
    if |parts| > 1 {
      var n := |parts| - 1;
      var rest := parts[1..];
      assert forall i :: 0 <= i < |rest| ==> rest[i] == parts[i + 1];
      JoinWidth(rest, sep, w);
      var head := parts[0] + Plain(sep);
      assert Join(parts, sep) == head + Join(rest, sep);
      VisibleAppend(parts[0], Plain(sep));
      VisibleAppend(head, Join(rest, sep));
      var wr := Width(Join(rest, sep));
      assert wr == n * w + (n - 1) * |sep|;
      assert Width(Join(parts, sep)) == w + |sep| + wr;
      MulStep(n, w, |sep|);
    }
  }

  /** In a join of parts of equal width `w`, part `k` occupies the `w` columns from `o == k * (w + |sep|)`. */
  lemma {:induction false} JoinAt(parts: seq<Line>, sep: string, w: nat, k: nat, o: nat)
    requires k < |parts| && o == k * (w + |sep|)
    requires forall i :: 0 <= i < |parts| ==> Width(parts[i]) == w
    ensures o + w <= |Visible(Join(parts, sep))|
    ensures Visible(Join(parts, sep))[o..o + w] == Visible(parts[k])
    decreases |parts|
  {
    if |parts| == 1 {
      SliceFront(Visible(Join(parts, sep)), Visible(parts[0]), "", w);
    } else if k == 0 {
      JoinSplit(parts, sep);
      SliceFront(Visible(Join(parts, sep)), Visible(parts[0]), sep + Visible(Join(parts[1..], sep)), w);
    } else {
      var rest := parts[1..];
      assert forall i :: 0 <= i < |rest| ==> Width(rest[i]) == w by {
        assert forall i :: 0 <= i < |rest| ==> rest[i] == parts[i + 1];
      }
      MulSucc(k, w + |sep|);
      var o' := (k - 1) * (w + |sep|);
      JoinAt(rest, sep, w, k - 1, o');
      JoinAtStep(parts, sep, w, k, o', o);
    }
  }

  /** One step of `JoinAt`: a part of the rest, moved past the first part and the separator. */
  lemma JoinAtStep(parts: seq<Line>, sep: string, w: nat, k: nat, o': nat, o: nat)
    requires 0 < k < |parts| && Width(parts[0]) == w && o == w + |sep| + o'
    requires o' + w <= |Visible(Join(parts[1..], sep))|
    requires Visible(Join(parts[1..], sep))[o'..o' + w] == Visible(parts[k])
    ensures o + w <= |Visible(Join(parts, sep))|
    ensures Visible(Join(parts, sep))[o..o + w] == Visible(parts[k])
  {
    JoinSplit(parts, sep);
    SlicePast(Visible(Join(parts, sep)), Visible(parts[0]) + sep, Visible(Join(parts[1..], sep)), o', w, o);
  }

  lemma SlicePast(v: string, head: string, tail: string, o: nat, w: nat, lo: nat)
    requires v == head + tail && o + w <= |tail| && lo == |head| + o
    ensures lo + w <= |v|
    ensures v[lo..lo + w] == tail[o..o + w]
  {
    assert v[lo..lo + w] == tail[o..o + w];
  }

  lemma SliceFront(v: string, a: string, b: string, w: nat)
    requires v == a + b && |a| == w
    ensures w <= |v| && v[0..w] == a
  {
    assert v[0..w] == a;
  }

  /** A join of two or more parts is the first part, the separator, and the join of the rest. */
  lemma JoinSplit(parts: seq<Line>, sep: string)
    requires |parts| > 1
    ensures Visible(Join(parts, sep)) == (Visible(parts[0]) + sep) + Visible(Join(parts[1..], sep))
    ensures Visible(Join(parts, sep)) == Visible(parts[0]) + (sep + Visible(Join(parts[1..], sep)))
  {
    VisibleAppend(parts[0], Plain(sep));
    VisibleAppend(parts[0] + Plain(sep), Join(parts[1..], sep));
  }

  /** Slicing past a known prefix is slicing the suffix. */
  lemma SliceAfter(a: string, b: string, o: nat, w: nat)
    requires o + w <= |b|
    ensures (a + b)[|a| + o..|a| + o + w] == b[o..o + w]
  {
  }

  lemma MulSucc(k: int, d: int)
    requires k >= 1 && d >= 0
    ensures k * d == d + (k - 1) * d
    ensures (k - 1) * d >= 0
  {
  }

  lemma MulStep(n: int, w: int, k: int)
    ensures w + k + (n * w + (n - 1) * k) == (n + 1) * w + n * k
  {
  }

  /** `" " * left + line + " " * right`. */
  function Pad(left: int, l: Line, right: int): (r: Line)
    ensures Visible(r) == Spaces(left) + Visible(l) + Spaces(right)
    ensures Width(r) == (if left > 0 then left else 0) + Width(l) + (if right > 0 then right else 0)
  {
    VisibleAppend(Plain(Spaces(left)), l);
    VisibleAppend(Plain(Spaces(left)) + l, Plain(Spaces(right)));
    Plain(Spaces(left)) + l + Plain(Spaces(right))
  }

  /** Every line of a block has the same visible width `w`. */
  predicate Uniform(lines: seq<Line>, w: int)
  {
    forall i :: 0 <= i < |lines| ==> Width(lines[i]) == w
  }

}
