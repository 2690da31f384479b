/** The identity normaliser: `number.replace(Regex("[^0-9]"), "")`, duplicated in
    the repository, the observers and the history screen, together with the
    string predicates the join keys are compared with. */
module PhoneNumber {
  import opened Seqs

  predicate IsDigit(c: char) {
    '0' <= c <= '9'
  }

  predicate AllDigits(s: string) {
    forall i :: 0 <= i < |s| ==> IsDigit(s[i])
  }

  /** SQLite `GLOB '*[0-9]*'`: some character is an ASCII digit. */
  predicate ContainsDigit(s: string) {
    exists i :: 0 <= i < |s| && IsDigit(s[i])
  }

  /** Kotlin `s.contains(p)`: `p` occurs in `s` as a contiguous block (the empty
      string occurs everywhere). */
  predicate Contains(s: string, p: string) {
    exists i :: 0 <= i <= |s| - |p| && OccursAt(s, p, i)
  }

  predicate OccursAt(s: string, p: string, i: int) {
    0 <= i <= |s| - |p| && s[i..i + |p|] == p
  }

  /** Keeps the ASCII digits of `raw`, in order. */
  function Normalize(raw: string): (r: string)
    ensures AllDigits(r)
    ensures |r| <= |raw|
    ensures forall c :: IsDigit(c) ==> multiset(r)[c] == multiset(raw)[c]
  {
    if |raw| == 0 then ""
    else
      assert raw == [raw[0]] + raw[1..];
      (if IsDigit(raw[0]) then [raw[0]] else "") + Normalize(raw[1..])
  }

  /** Normalisation is the digit filter: it keeps exactly the digits, in order. */
  lemma {:induction false} NormalizeIsDigitFilter(raw: string)
    ensures Normalize(raw) == Filter(raw, IsDigit)
    decreases |raw|
  {
    if |raw| > 0 {
      NormalizeIsDigitFilter(raw[1..]);
    }
  }

  lemma NormalizeIsSubsequence(raw: string)
    ensures Subsequence(Normalize(raw), raw)
  {
    NormalizeIsDigitFilter(raw);
    FilterSubsequence(raw, IsDigit);
  }

  /** A string of digits is its own normal form. */
  lemma {:induction false} NormalizeFixesDigits(s: string)
    requires AllDigits(s)
    ensures Normalize(s) == s
    decreases |s|
  {
    if |s| > 0 {
      NormalizeFixesDigits(s[1..]);
      assert s == [s[0]] + s[1..];
    }
  }

  lemma NormalizeIdempotent(raw: string)
    ensures Normalize(Normalize(raw)) == Normalize(raw)
  {
    NormalizeFixesDigits(Normalize(raw));
  }

  /** Normalisation works character by character, so it distributes over concatenation. */
  lemma {:induction false} NormalizeConcat(a: string, b: string)
    ensures Normalize(a + b) == Normalize(a) + Normalize(b)
    decreases |a|
  {
    if |a| > 0 {
      assert (a + b)[1..] == a[1..] + b;
      NormalizeConcat(a[1..], b);
    } else {
      assert a + b == b;
    }
  }

  /** The key is empty exactly when the raw string holds no digit: this is why the
      `GLOB '*[0-9]*'` filter on a raw address removes exactly the empty key. */
  lemma {:induction false} NormalizeEmptyIff(raw: string)
    ensures Normalize(raw) == "" <==> !ContainsDigit(raw)
    decreases |raw|
  {
    if |raw| > 0 {
      NormalizeEmptyIff(raw[1..]);
      if ContainsDigit(raw) && !IsDigit(raw[0]) {
        var i :| 0 <= i < |raw| && IsDigit(raw[i]);
        assert raw[1..][i - 1] == raw[i];
      }
      if ContainsDigit(raw[1..]) {
        var i :| 0 <= i < |raw[1..]| && IsDigit(raw[1..][i]);
        assert raw[i + 1] == raw[1..][i];
      }
    }
  }

  lemma ContainsEmpty(s: string)
    ensures Contains(s, "")
  {
    assert OccursAt(s, "", 0);
  }

  lemma ContainsSelf(s: string)
    ensures Contains(s, s)
  {
    assert OccursAt(s, s, 0);
  }
}
