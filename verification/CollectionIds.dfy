/** Generated item ids, homeassistant/helpers/collection.py. */
module CollectionIds {
  function Digits(n: nat): (s: string)
    ensures s != "" && (|s| == 1 <==> n < 10)
  {
    var last := [('0' as int + n % 10) as char];
    if n < 10 then last else Digits(n / 10) + last
  }

  lemma {:induction false} DigitsInjective(n: nat, m: nat)
    requires Digits(n) == Digits(m)
    ensures n == m
    decreases n
  {
    var s, t := Digits(n), Digits(m);
    assert s[|s| - 1] == ('0' as int + n % 10) as char;
    assert t[|t| - 1] == ('0' as int + m % 10) as char;
    assert n % 10 == m % 10;
    if n >= 10 {
      assert Digits(n / 10) == s[..|s| - 1] == t[..|t| - 1] == Digits(m / 10);
      DigitsInjective(n / 10, m / 10);
    }
  }

  predicate IsDigit(c: char) {
    '0' <= c <= '9'
  }

  /** The number that a decimal numeral denotes. */
  function Value(s: string): nat
    requires forall i :: 0 <= i < |s| ==> IsDigit(s[i])
  {
    if s == "" then 0
    else
      assert IsDigit(s[|s| - 1]);
      10 * Value(s[..|s| - 1]) + (s[|s| - 1] as int - '0' as int)
  }

  /** The numeral denotes the number, and has no leading zero. */
  lemma {:induction false} DigitsDenote(n: nat)
    ensures forall i :: 0 <= i < |Digits(n)| ==> IsDigit(Digits(n)[i])
    ensures Value(Digits(n)) == n
    ensures n > 0 ==> Digits(n)[0] != '0'
    decreases n
  {
    var s := Digits(n);
    if n >= 10 {
      DigitsDenote(n / 10);
      assert s[..|s| - 1] == Digits(n / 10);
    } else {
      assert s[..0] == "";
    }
  }

  /** The proposals: the slug itself, then the slug with `_2`, `_3` and so on. */
  function Proposal(base: string, attempt: nat): (s: string)
    ensures attempt > 1 ==> |s| > |base| && s[..|base| + 1] == base + "_" && s[|base| + 1..] == Digits(attempt)
    ensures attempt <= 1 ==> s == base
  {
    if attempt <= 1 then base else base + "_" + Digits(attempt)
  }

  lemma ProposalsInjective(base: string, a: nat, b: nat)
    requires 1 <= a && 1 <= b && Proposal(base, a) == Proposal(base, b)
    ensures a == b
  {
    if a > 1 {
      DigitsInjective(a, b);
    }
  }

  predicate ProposedBefore(base: string, attempt: nat, id: string) {
    exists k :: 1 <= k < attempt && id == Proposal(base, k)
  }

  lemma NothingProposedBefore(base: string)
    ensures Proposal(base, 1) == base
    ensures forall id :: !ProposedBefore(base, 1, id)
  {
  }

  lemma NotProposedBefore(base: string, attempt: nat)
    requires attempt >= 1
    ensures !ProposedBefore(base, attempt, Proposal(base, attempt))
    ensures ProposedBefore(base, attempt + 1, Proposal(base, attempt))
    ensures forall id :: ProposedBefore(base, attempt, id) ==> ProposedBefore(base, attempt + 1, id)
  {
    forall k | 1 <= k < attempt ensures Proposal(base, k) != Proposal(base, attempt) {
      if Proposal(base, k) == Proposal(base, attempt) { ProposalsInjective(base, k, attempt); }
    }
  }
}
