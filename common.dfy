// Shared value types and string helpers used by every other module:
// optional values, results, ASCII lower-casing, substring search, prefix
// tests and the code-unit string order that JavaScript's default sort uses.
module Common {

  datatype Option<+T> = None | Some(value: T)

  datatype Result<+T, +E> = Success(value: T) | Failure(error: E)

  /** Lower-cases one ASCII letter; every other character is unchanged. */
  function LowerChar(c: char): char
  {
    if 'A' <= c <= 'Z' then (c as int + 32) as char else c
  }

  /** ASCII lower-casing (Unicode case mapping is not modelled). */
  function Lower(s: string): (r: string)
    ensures |r| == |s|
    ensures forall i :: 0 <= i < |s| ==> r[i] == LowerChar(s[i])
  {
    if s == [] then [] else [LowerChar(s[0])] + Lower(s[1..])
  }

  /** `needle` occurs in `hay` starting at `at`. */
  predicate OccursAt(hay: string, needle: string, at: int)
  {
    0 <= at && at + |needle| <= |hay| && hay[at..at + |needle|] == needle
  }

  /** `hay.includes(needle)` / `strings.Contains(hay, needle)`. */
  predicate Contains(hay: string, needle: string)
  {
    exists at :: 0 <= at <= |hay| - |needle| && OccursAt(hay, needle, at)
  }

  /** `s.startsWith(prefix)` / `strings.HasPrefix(s, prefix)`. */
  predicate StartsWith(s: string, prefix: string)
  {
    |prefix| <= |s| && s[..|prefix|] == prefix
  }

  /** The empty string occurs in every string. */
  lemma EmptyContained(hay: string)
    ensures Contains(hay, "")
  {
    assert OccursAt(hay, "", 0);
  }

  /** A prefix is contained. */
  lemma PrefixContained(hay: string, p: string)
    requires StartsWith(hay, p)
    ensures Contains(hay, p)
  {
    assert OccursAt(hay, p, 0);
  }

  /** `a < b` in JavaScript's string comparison (code unit by code unit,
      a proper prefix being smaller). */
  predicate Below(a: string, b: string)
  {
    if a == [] then b != []
    else if b == [] then false
    else if a[0] != b[0] then a[0] < b[0]
    else Below(a[1..], b[1..])
  }

  lemma {:induction false} BelowIrreflexive(a: string)
    ensures !Below(a, a)
  {
    if a != [] { BelowIrreflexive(a[1..]); }
  }

  lemma {:induction false} BelowAsymmetric(a: string, b: string)
    requires Below(a, b)
    ensures !Below(b, a)
  {
    if a != [] && b != [] && a[0] == b[0] { BelowAsymmetric(a[1..], b[1..]); }
  }

  lemma {:induction false} BelowTransitive(a: string, b: string, c: string)
    requires Below(a, b) && Below(b, c)
    ensures Below(a, c)
  {
    if a != [] && b != [] && c != [] && a[0] == b[0] && b[0] == c[0] {
      BelowTransitive(a[1..], b[1..], c[1..]);
    }
  }

  /** Distinct strings are always ordered one way or the other. */
  lemma {:induction false} BelowTotal(a: string, b: string)
    requires a != b
    ensures Below(a, b) || Below(b, a)
  {
    if a != [] && b != [] && a[0] == b[0] {
      assert a == [a[0]] + a[1..] && b == [b[0]] + b[1..];
      BelowTotal(a[1..], b[1..]);
    }
  }

  /** Extending a prefix by one element. */
  lemma PrefixSnoc<T>(s: seq<T>, n: nat)
    requires n < |s|
    ensures s[..n + 1] == s[..n] + [s[n]]
  {
  }
}
