/** Shared vocabulary: optional values, results, and the string facts the
    serialisers and decoders of this project rely on. */
module Common {

  datatype Option<+T> = None | Some(value: T)

  /** The outcome of an operation that can fail, in place of Rust's
      `Result<T, E>` and the `?` operator. */
  datatype Result<+T, +E> = Ok(value: T) | Err(error: E)

  predicate StartsWith(s: string, prefix: string) {
    |prefix| <= |s| && s[..|prefix|] == prefix
  }

  predicate IsAsciiDigit(c: char) {
    '0' <= c <= '9'
  }

  predicate IsAsciiAlphanumeric(c: char) {
    IsAsciiDigit(c) || 'a' <= c <= 'z' || 'A' <= c <= 'Z'
  }

  /** `d` occurs in `s` starting at position `p`. */
  predicate OccursAt(s: string, d: string, p: nat) {
    p + |d| <= |s| && s[p..p + |d|] == d
  }

  /** `d` occurs somewhere inside `s`. */
  predicate Contains(s: string, d: string) {
    exists p: nat | p <= |s| :: OccursAt(s, d, p)
  }

  /** The first position at which `d` occurs in `s`, if any. */
  function IndexOf(s: string, d: string): (r: Option<nat>)
    ensures r.Some? ==> OccursAt(s, d, r.value)
    ensures r.Some? ==> forall p: nat :: p < r.value ==> !OccursAt(s, d, p)
    ensures r.None? ==> forall p: nat :: !OccursAt(s, d, p)
    decreases |s|
  {
    if |s| < |d| then
      None
    else if s[..|d|] == d then
      Some(0)
    else
      OccursShift(s, d);
      match IndexOf(s[1..], d)
      case None => None
      case Some(k) => Some(k + 1)
  }

  /** An occurrence at a positive position of `s` is an occurrence one
      position earlier in `s[1..]`. */
  lemma OccursShift(s: string, d: string)
    requires |s| > 0
    ensures forall p: nat :: 0 < p ==> (OccursAt(s, d, p) <==> OccursAt(s[1..], d, p - 1))
  {
    forall p: nat | 0 < p
      ensures OccursAt(s, d, p) <==> OccursAt(s[1..], d, p - 1)
    {
      if p + |d| <= |s| {
        var t := s[1..];
        var a, b := s[p..p + |d|], t[p - 1..p - 1 + |d|];
        assert forall i :: 0 <= i < |d| ==> a[i] == b[i];
        assert a == b;
      }
    }
  }

  /** An occurrence of `d` inside the first `k` characters of `s` is one in `s`. */
  lemma PrefixOccurrence(s: string, d: string, k: nat)
    requires k <= |s|
    ensures forall p: nat :: OccursAt(s[..k], d, p) ==> OccursAt(s, d, p)
  {
    forall p: nat | OccursAt(s[..k], d, p)
      ensures OccursAt(s, d, p)
    {
      assert s[..k][p..p + |d|] == s[p..p + |d|];
    }
  }

  /** A string that lacks the first character of `d` does not contain `d`. */
  lemma LacksFirstChar(s: string, d: string)
    requires |d| > 0 && d[0] !in s
    ensures !Contains(s, d)
  {
    forall p: nat | p + |d| <= |s|
      ensures !OccursAt(s, d, p)
    {
      assert s[p..p + |d|][0] == s[p];
    }
  }

  /** A one-character delimiter occurs exactly where the character does. */
  lemma ContainsChar(s: string, c: char)
    ensures Contains(s, [c]) <==> c in s
  {
    if c in s {
      var p :| 0 <= p < |s| && s[p] == c;
      assert s[p..p + 1] == [c];
      assert OccursAt(s, [c], p);
    } else {
      LacksFirstChar(s, [c]);
    }
  }

  /** `d` cannot begin again inside itself: its first character does not
      recur, so no two occurrences of `d` overlap. */
  predicate NoSelfOverlap(d: string) {
    |d| > 0 && d[0] !in d[1..]
  }

  /** The fields of `s` between the occurrences of `d`, scanning from the
      left, like Rust's `str::split`. */
  function SplitOn(s: string, d: string): (fields: seq<string>)
    requires |d| > 0
    ensures |fields| > 0
    ensures forall i :: 0 <= i < |fields| ==> !Contains(fields[i], d)
    decreases |s|
  {
    match IndexOf(s, d)
    case None => [s]
    case Some(k) =>
      PrefixOccurrence(s, d, k);
      [s[..k]] + SplitOn(s[k + |d|..], d)
  }

  /** The fields with `d` between neighbours. */
  function JoinOn(fields: seq<string>, d: string): string {
    if fields == [] then []
    else if |fields| == 1 then fields[0]
    else fields[0] + d + JoinOn(fields[1..], d)
  }

  /** Concatenation is associative; a step Dafny does not always take on
      its own inside a larger proof. */
  lemma AppendAssoc<T>(a: seq<T>, b: seq<T>, c: seq<T>)
    ensures a + (b + c) == a + b + c
  {
  }

  lemma JoinOnCons(x: string, rest: seq<string>, d: string)
    requires |rest| > 0
    ensures JoinOn([x] + rest, d) == x + d + JoinOn(rest, d)
  {
    assert ([x] + rest)[1..] == rest;
  }

  /** In `a + d + b` the first `d` is the one after `a` when `a` holds
      none and occurrences of `d` cannot overlap. */
  lemma IndexOfJoined(a: string, d: string, b: string)
    requires NoSelfOverlap(d) && !Contains(a, d)
    ensures IndexOf(a + d + b, d) == Some(|a|)
  {
    var s := a + d + b;
    assert s[|a|..|a| + |d|] == d;
    assert OccursAt(s, d, |a|);
    forall p: nat | p < |a|
      ensures !OccursAt(s, d, p)
    {
      if p + |d| <= |a| {
        assert s[p..p + |d|] == a[p..p + |d|];
        assert !OccursAt(a, d, p);
      } else {
        var j := |a| - p;
        assert s[p..p + |d|][j] == s[|a|] == d[0];
        assert d[1..][j - 1] == d[j];
      }
    }
  }

  /** Splitting undoes joining when no field holds the delimiter and the
      delimiter cannot overlap itself. */
  lemma {:induction false} SplitOnJoin(fields: seq<string>, d: string)
    requires |fields| > 0 && NoSelfOverlap(d)
    requires forall i :: 0 <= i < |fields| ==> !Contains(fields[i], d)
    ensures SplitOn(JoinOn(fields, d), d) == fields
    decreases |fields|
  {
    if |fields| == 1 {
      assert forall p: nat :: !OccursAt(fields[0], d, p);
    } else {
      var rest := JoinOn(fields[1..], d);
      var s := fields[0] + d + rest;
      IndexOfJoined(fields[0], d, rest);
      assert s[..|fields[0]|] == fields[0];
      assert s[|fields[0]| + |d|..] == rest;
      SplitOnJoin(fields[1..], d);
      assert [fields[0]] + fields[1..] == fields;
    }
  }

  /** Joining the fields of a split gives back the text. */
  lemma {:induction false} JoinSplitOn(s: string, d: string)
    requires |d| > 0
    ensures JoinOn(SplitOn(s, d), d) == s
    decreases |s|
  {
    match IndexOf(s, d)
    case None =>
    case Some(k) =>
      var rest := s[k + |d|..];
      JoinSplitOn(rest, d);
      var fields := SplitOn(s, d);
      assert fields == [s[..k]] + SplitOn(rest, d);
      assert fields[1..] == SplitOn(rest, d);
      assert s[k..k + |d|] == d;
      assert s == s[..k] + d + rest;
  }

  /** Number of bytes in the UTF-8 encoding of one Unicode scalar value. */
  function Utf8Width(c: char): (w: nat)
    ensures 1 <= w <= 4
    ensures w == 1 <==> c < 128 as char
  {
    if c < 128 as char then 1
    else if c < 0x800 as char then 2
    else if c < 0x1_0000 as char then 3
    else 4
  }

  /** Number of bytes in the UTF-8 encoding of `s`: Rust's `str::len`. */
  function Utf8Length(s: string): nat {
    if s == [] then 0 else Utf8Width(s[0]) + Utf8Length(s[1..])
  }

  lemma {:induction false} Utf8LengthAppend(a: string, b: string)
    ensures Utf8Length(a + b) == Utf8Length(a) + Utf8Length(b)
    decreases |a|
  {
    if a == [] {
      assert a + b == b;
    } else {
      assert (a + b)[1..] == a[1..] + b;
      Utf8LengthAppend(a[1..], b);
    }
  }

  /** Concatenation of a sequence of strings. */
  function Concat(ss: seq<string>): (r: string)
    ensures |r| == 0 <==> forall i :: 0 <= i < |ss| ==> ss[i] == []
  {
    if ss == [] then [] else ss[0] + Concat(ss[1..])
  }
}
