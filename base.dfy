/** Value types and string helpers shared by the other modules of the model:
    an optional value (JavaScript `undefined`, Kotlin/Swift `null`), ASCII
    lower-casing, substring search and separator-based splitting as the
    JavaScript `String.prototype` methods used by the bridge behave on them. */
module Base {

  datatype Option<+T> = None | Some(value: T) {
    /** The value, or `default` when absent (JavaScript `??`). */
    function GetOr(default: T): T {
      match this
      case Some(v) => v
      case None => default
    }
  }

  predicate IsUpper(c: char) { 'A' <= c <= 'Z' }

  predicate IsDigit(c: char) { '0' <= c <= '9' }

  function LowerChar(c: char): (d: char)
    ensures !IsUpper(d)
    ensures !IsUpper(c) ==> d == c
    ensures IsUpper(c) ==> d as int == c as int + 32
  {
    if IsUpper(c) then (c as int + 32) as char else c
  }

  /** `toLowerCase`, restricted to the ASCII letters. */
  function Lower(s: string): (r: string)
    ensures |r| == |s|
    ensures forall i :: 0 <= i < |r| ==> !IsUpper(r[i])
    ensures forall i :: 0 <= i < |s| ==> r[i] == LowerChar(s[i])
  {
    seq(|s|, i requires 0 <= i < |s| => LowerChar(s[i]))
  }

  lemma LowerIdempotent(s: string)
    ensures Lower(Lower(s)) == Lower(s)
  {
  }

  /** `needle` occurs in `hay` starting at index `i`. */
  predicate OccursAt(hay: string, needle: string, i: int) {
    0 <= i && i + |needle| <= |hay| && hay[i..i + |needle|] == needle
  }

  /** `hay.includes(needle)` / `hay.contains(needle)`. */
  predicate Contains(hay: string, needle: string)
    decreases |hay|
  {
    needle <= hay || (|hay| > 0 && Contains(hay[1..], needle))
  }

  /** Every match found by the recursive search is an occurrence at some index. */
  lemma {:induction false} ContainsHasOccurrence(hay: string, needle: string)
    requires Contains(hay, needle)
    ensures exists i :: OccursAt(hay, needle, i)
    decreases |hay|
  {
    if needle <= hay {
      assert OccursAt(hay, needle, 0);
    } else {
      ContainsHasOccurrence(hay[1..], needle);
      var j :| OccursAt(hay[1..], needle, j);
      assert hay[1..][j..j + |needle|] == hay[j + 1..j + 1 + |needle|];
      assert OccursAt(hay, needle, j + 1);
    }
  }

  /** Every occurrence is found by the recursive search. */
  lemma {:induction false} OccurrenceContained(hay: string, needle: string, i: int)
    requires OccursAt(hay, needle, i)
    ensures Contains(hay, needle)
    decreases i
  {
    if i > 0 {
      assert hay[1..][i - 1..i - 1 + |needle|] == hay[i..i + |needle|];
      OccurrenceContained(hay[1..], needle, i - 1);
    }
  }

  /** A prefix is an occurrence, so `p + s` always contains `p`. */
  lemma PrefixContained(p: string, s: string)
    ensures Contains(p + s, p)
  {
    assert p <= p + s;
  }

  /** Number of characters of `s` satisfying `p`. */
  function CountWhere(s: string, p: char -> bool): nat
  {
    if s == [] then 0 else (if p(s[0]) then 1 else 0) + CountWhere(s[1..], p)
  }

  /** The characters of `s` not satisfying `p`, in order. */
  function Without(s: string, p: char -> bool): string
  {
    if s == [] then [] else (if p(s[0]) then [] else [s[0]]) + Without(s[1..], p)
  }

  function Concat(pieces: seq<string>): string
  {
    if pieces == [] then [] else pieces[0] + Concat(pieces[1..])
  }

  /** `s.split(sep)` where every single character satisfying `isSep` is a
      separator: consecutive, leading and trailing separators give empty pieces. */
  function SplitWhere(s: string, isSep: char -> bool): (pieces: seq<string>)
    ensures |pieces| == CountWhere(s, isSep) + 1
    ensures forall k, j :: 0 <= k < |pieces| && 0 <= j < |pieces[k]| ==> !isSep(pieces[k][j])
    ensures Concat(pieces) == Without(s, isSep)
    decreases |s|
  {
    if s == [] then [""]
    else
      var rest := SplitWhere(s[1..], isSep);
      if isSep(s[0]) then
        assert Concat([""] + rest) == Concat(rest);
        [""] + rest
      else
        var pieces := [[s[0]] + rest[0]] + rest[1..];
        assert rest == [rest[0]] + rest[1..];
        assert Concat(rest) == rest[0] + Concat(rest[1..]);
        assert pieces[1..] == rest[1..];
        pieces
  }

  /** A string without separators is a single piece. */
  lemma {:induction false} SplitWithoutSeparator(s: string, isSep: char -> bool)
    requires forall i :: 0 <= i < |s| ==> !isSep(s[i])
    ensures SplitWhere(s, isSep) == [s]
    decreases |s|
  {
    if s != [] {
      SplitWithoutSeparator(s[1..], isSep);
      assert [s[0]] + s[1..] == s;
    }
  }

  /** Splitting stops a piece at its first separator. */
  lemma {:induction false} SplitAtSeparator(a: string, c: char, b: string, isSep: char -> bool)
    requires forall i :: 0 <= i < |a| ==> !isSep(a[i])
    requires isSep(c)
    ensures SplitWhere(a + [c] + b, isSep) == [a] + SplitWhere(b, isSep)
    decreases |a|
  {
    var s := a + [c] + b;
    if a == [] {
      assert s[1..] == b;
    } else {
      assert s[1..] == a[1..] + [c] + b;
      SplitAtSeparator(a[1..], c, b, isSep);
      assert [a[0]] + a[1..] == a;
    }
  }

  /** Substring containment is transitive. */
  lemma ContainsTransitive(a: string, b: string, c: string)
    requires Contains(a, b) && Contains(b, c)
    ensures Contains(a, c)
  {
    ContainsHasOccurrence(a, b);
    ContainsHasOccurrence(b, c);
    var i :| OccursAt(a, b, i);
    var j :| OccursAt(b, c, j);
    forall k | 0 <= k < |c|
      ensures a[i + j + k] == c[k]
    {
      assert b[j..j + |c|][k] == c[k];
      assert a[i..i + |b|][j + k] == b[j + k];
    }
    assert a[i + j..i + j + |c|] == c;
    OccurrenceContained(a, c, i + j);
  }

  /** Filtering distributes over concatenation. */
  lemma {:induction false} WithoutAppend(a: string, b: string, p: char -> bool)
    ensures Without(a + b, p) == Without(a, p) + Without(b, p)
    decreases |a|
  {
    if a == [] {
      assert a + b == b;
    } else {
      assert (a + b)[0] == a[0];
      assert (a + b)[1..] == a[1..] + b;
      WithoutAppend(a[1..], b, p);
    }
  }

  /** Filtering out characters that do not occur changes nothing. */
  lemma {:induction false} WithoutNone(s: string, p: char -> bool)
    requires forall i :: 0 <= i < |s| ==> !p(s[i])
    ensures Without(s, p) == s
    decreases |s|
  {
    if s != [] {
      WithoutNone(s[1..], p);
      assert [s[0]] + s[1..] == s;
    }
  }

  /** What filtering leaves has no filtered character. */
  lemma {:induction false} WithoutLeavesNone(s: string, p: char -> bool)
    ensures forall i :: 0 <= i < |Without(s, p)| ==> !p(Without(s, p)[i])
    decreases |s|
  {
    if s != [] {
      WithoutLeavesNone(s[1..], p);
    }
  }

  /** Filtering twice is filtering once. */
  lemma WithoutIdempotent(s: string, p: char -> bool)
    ensures Without(Without(s, p), p) == Without(s, p)
  {
    WithoutLeavesNone(s, p);
    WithoutNone(Without(s, p), p);
  }
}
