/** Snapshot ids: `s-` and the zero-padded sequence number (src/model.rs). */
module SnapshotIds {
  import opened Basics
  import opened Text
  import opened Records

  lemma IdsAreInjective(n: u64, m: u64)
    requires SnapshotIdOf(n) == SnapshotIdOf(m)
    ensures n == m
  {
    assert SnapshotIdOf(n)[2..] == Pad(n, 12) && SnapshotIdOf(m)[2..] == Pad(m, 12);
    PadInjective(n, m, 12);
  }

  const TWELVE_DIGITS := 1_000_000_000_000

  lemma TwelveDigits()
    ensures Pow10(12) == TWELVE_DIGITS
  {
    assert Pow10(6) == 1_000_000;
    assert Pow10(12) == 10 * (10 * (10 * (10 * (10 * (10 * Pow10(6))))));
  }

  ghost predicate OrderedBelow(bound: u64) {
    forall n: u64, m: u64 :: n < m < bound ==> LexLess(SnapshotIdOf(n), SnapshotIdOf(m))
  }

  lemma SmallIdsOrdered(n: u64, m: u64)
    requires n < m < TWELVE_DIGITS
    ensures LexLess(SnapshotIdOf(n), SnapshotIdOf(m))
  {
    TwelveDigits();
    PadOrder(n, m, 12);
    LexAfterPrefix("s-", Pad(n, 12), Pad(m, 12));
  }

  lemma HeadOfTenfold(p: nat, digit: nat)
    requires p >= 1 && digit < 10
    ensures Decimal(10 * p + digit)[0] == Decimal(p)[0]
  {
    assert (10 * p + digit) / 10 == p;
  }

  lemma SingleDigits()
    ensures Decimal(1)[0] == '1' && Decimal(9)[0] == '9'
  {}

  lemma {:induction false} LeadingDigits(k: nat)
    ensures Decimal(Pow10(k))[0] == '1'
    ensures k >= 1 ==> Decimal(Pow10(k) - 1)[0] == '9'
  {
    hide Decimal;
    SingleDigits();
    if k == 0 {
    } else {
      LeadingDigits(k - 1);
      var p := Pow10(k - 1);
      HeadOfTenfold(p, 0);
      if k > 1 { HeadOfTenfold(p - 1, 9); }
    }
  }

  /** The thirteenth digit breaks the order. */
  lemma FirstWideIdIsLess()
    ensures LexLess(SnapshotIdOf(TWELVE_DIGITS), SnapshotIdOf(TWELVE_DIGITS - 1))
  {
    TwelveDigits();
    LeadingDigits(12);
    DecimalLength(TWELVE_DIGITS, 12);
    DecimalLength(TWELVE_DIGITS - 1, 12);
    DecimalLength(TWELVE_DIGITS - 1, 11);
    assert Pow10(12) == 10 * Pow10(11);
    var wide, narrow := Pad(TWELVE_DIGITS, 12), Pad(TWELVE_DIGITS - 1, 12);
    assert wide[0] == '1' && narrow[0] == '9';
    LexAfterPrefix("s-", wide, narrow);
  }

  /** Lexical order is sequencing order for all ids below a bound exactly when
      the bound is at most 10^12. */
  lemma OrderedExactlyToTwelveDigits(bound: u64)
    ensures OrderedBelow(bound) <==> bound <= TWELVE_DIGITS
  {
    hide SnapshotIdOf;
    if bound <= TWELVE_DIGITS {
      forall n: u64, m: u64 | n < m < bound ensures LexLess(SnapshotIdOf(n), SnapshotIdOf(m)) {
        SmallIdsOrdered(n, m);
      }
    } else {
      FirstWideIdIsLess();
      LexAsymmetric(SnapshotIdOf(TWELVE_DIGITS), SnapshotIdOf(TWELVE_DIGITS - 1));
    }
  }
}
