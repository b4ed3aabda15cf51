/**
 * The address normalisation applied to the `adresse` column before each
 * address is interpolated into a request URL: every space becomes a `+`.
 * Nothing else is escaped; this is not URL encoding.
 */
module Address {

  const SPACE: char := ' '
  const PLUS: char := '+'

  /** `s.replace(' ', '+')` on one cell. */
  function Normalise(s: string): (r: string)
    ensures |r| == |s|
  {
    if s == [] then []
    else [if s[0] == SPACE then PLUS else s[0]] + Normalise(s[1..])
  }

  /** No character of `s` is a space. */
  predicate SpaceFree(s: string)
  {
    forall i :: 0 <= i < |s| ==> s[i] != SPACE
  }

  /** Normalisation keeps the length and changes exactly the spaces, into `+`. */
  lemma {:induction false} NormaliseAt(s: string)
    ensures |Normalise(s)| == |s|
    ensures forall i :: 0 <= i < |s| ==> Normalise(s)[i] == if s[i] == SPACE then PLUS else s[i]
  {
    if s != [] {
      NormaliseAt(s[1..]);
      var r := Normalise(s);
      forall i | 1 <= i < |s|
        ensures r[i] == if s[i] == SPACE then PLUS else s[i]
      {
        assert r[i] == Normalise(s[1..])[i - 1];
      }
    }
  }

  /** A normalised address holds no space. */
  lemma NormaliseSpaceFree(s: string)
    ensures SpaceFree(Normalise(s))
  {
    NormaliseAt(s);
  }

  /** An address without spaces is left as it is. */
  lemma {:induction false} NormaliseFixesSpaceFree(s: string)
    requires SpaceFree(s)
    ensures Normalise(s) == s
  {
    if s != [] {
      assert SpaceFree(s[1..]) by {
        forall i | 0 <= i < |s[1..]| ensures s[1..][i] != SPACE {
          assert s[1..][i] == s[i + 1];
        }
      }
      NormaliseFixesSpaceFree(s[1..]);
      assert s == [s[0]] + s[1..];
    }
  }

  /** Normalising twice is normalising once. */
  lemma NormaliseIdempotent(s: string)
    ensures Normalise(Normalise(s)) == Normalise(s)
  {
    NormaliseSpaceFree(s);
    NormaliseFixesSpaceFree(Normalise(s));
  }

  /** Python's `s.split(sep)` for a one-character separator. */
  function Split(s: string, sep: char): (parts: seq<string>)
    ensures |parts| >= 1
  {
    if s == [] then [[]]
    else
      var rest := Split(s[1..], sep);
      if s[0] == sep then [[]] + rest
      else [[s[0]] + rest[0]] + rest[1..]
  }

  /** Python's `sep.join(parts)` for a one-character separator. */
  function Join(parts: seq<string>, sep: char): (s: string)
  {
    if |parts| == 0 then []
    else if |parts| == 1 then parts[0]
    else parts[0] + [sep] + Join(parts[1..], sep)
  }

  /**
   * `replace` agrees with its reference definition in terms of `split` and
   * `join`: `'+'.join(s.split(' '))`.
   */
  lemma {:induction false} NormaliseIsSplitJoin(s: string)
    ensures Normalise(s) == Join(Split(s, SPACE), PLUS)
  {
    if s != [] {
      NormaliseIsSplitJoin(s[1..]);
      var rest := Split(s[1..], SPACE);
      if s[0] == SPACE {
        assert ([[]] + rest)[1..] == rest;
      } else {
        var parts := Split(s, SPACE);
        assert parts[0] == [s[0]] + rest[0];
        if |rest| > 1 {
          assert parts[1..] == rest[1..];
        }
      }
    }
  }

  /** Splitting and joining with the same separator gives back the string. */
  lemma {:induction false} SplitJoinRoundTrip(s: string, sep: char)
    ensures Join(Split(s, sep), sep) == s
  {
    if s != [] {
      SplitJoinRoundTrip(s[1..], sep);
      var rest := Split(s[1..], sep);
      if s[0] == sep {
        assert ([[]] + rest)[1..] == rest;
      } else {
        var parts := Split(s, sep);
        if |rest| > 1 {
          assert parts[1..] == rest[1..];
        }
      }
      assert s == [s[0]] + s[1..];
    }
  }
}
