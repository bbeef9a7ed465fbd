/** The file names of checkpoints: padded so that the order of the names is the order of the generations. */
module CheckpointNames {
  const PREFIX: string := "checkpoint-"
  const SUFFIX: string := ".json"
  const DIGITS: nat := 20

  /** The order Python sorts strings by. */
  predicate Below(a: string, b: string) {
    b != [] && (a == [] || a[0] < b[0] || (a[0] == b[0] && Below(a[1..], b[1..])))
  }

  function Pow10(k: nat): (p: nat)
    ensures p > 0
  {
    if k == 0 then 1 else 10 * Pow10(k - 1)
  }

  function Digit(d: nat): (c: char)
    requires d < 10
    ensures '0' <= c <= '9' && c as int == d + 48
  {
    (d + 48) as char
  }

  /** Decimal digits of `n`, with leading zeros up to `width`. */
  function Padded(n: nat, width: nat): string
    decreases n, width
  {
    if n < 10 && width <= 1 then [Digit(n)]
    else Padded(n / 10, if width == 0 then 0 else width - 1) + [Digit(n % 10)]
  }

  predicate IsDigits(s: string) {
    forall i :: 0 <= i < |s| ==> '0' <= s[i] <= '9'
  }

  function Value(s: string): nat
    requires IsDigits(s)
  {
    if s == [] then 0 else 10 * Value(s[..|s| - 1]) + (s[|s| - 1] as int - 48)
  }

  function Name(generation: nat): string {
    PREFIX + Padded(generation, DIGITS) + SUFFIX
  }

  /** Names the store takes for checkpoints. */
  predicate Recognized(name: string) {
    && |name| == |PREFIX| + DIGITS + |SUFFIX|
    && name[..|PREFIX|] == PREFIX
    && name[|PREFIX| + DIGITS..] == SUFFIX
    && IsDigits(name[|PREFIX|..|PREFIX| + DIGITS])
  }

  function Generation(name: string): nat
    requires Recognized(name)
  {
    Value(name[|PREFIX|..|PREFIX| + DIGITS])
  }

  // ----- the order -----

  lemma {:induction false} BelowIsTotal(a: string, b: string)
    ensures Below(a, b) || Below(b, a) || a == b
    ensures !(Below(a, b) && Below(b, a)) && !Below(a, a)
  {
    if a != [] && b != [] && a[0] == b[0] {
      BelowIsTotal(a[1..], b[1..]);
      assert a == [a[0]] + a[1..] && b == [b[0]] + b[1..];
    }
    if a != [] {
      BelowIsTotal(a[1..], a[1..]);
    }
  }

  lemma {:induction false} BelowIsTransitive(a: string, b: string, c: string)
    requires Below(a, b) && Below(b, c)
    ensures Below(a, c)
  {
    if a != [] && a[0] == b[0] && b[0] == c[0] {
      BelowIsTransitive(a[1..], b[1..], c[1..]);
    }
  }

  lemma {:induction false} BelowAfterSame(same: string, a: string, b: string)
    ensures Below(same + a, same + b) <==> Below(a, b)
  {
    if same == [] {
      assert same + a == a && same + b == b;
    } else {
      assert (same + a)[1..] == same[1..] + a && (same + b)[1..] == same[1..] + b;
      BelowAfterSame(same[1..], a, b);
    }
  }

  // With the first parts equally long, they decide unless they are equal.
  lemma {:induction false} BelowByParts(a: string, b: string, x: string, y: string)
    requires |a| == |b|
    ensures Below(a + x, b + y) <==> Below(a, b) || (a == b && Below(x, y))
  {
    if a == [] {
      assert a + x == x && b + y == y;
    } else {
      assert (a + x)[1..] == a[1..] + x && (b + y)[1..] == b[1..] + y;
      BelowByParts(a[1..], b[1..], x, y);
      assert a == [a[0]] + a[1..] && b == [b[0]] + b[1..];
      BelowIsTotal(b[1..], b[1..]);
    }
  }

  /** Equally long digit strings are ordered as the numbers they write. */
  lemma LastDigitOrder(x: char, y: char)
    ensures Below([x], [y]) <==> x < y
    ensures !(x < y) && !(y < x) ==> x == y
  {
    assert [x][1..] == [] && [y][1..] == [];
  }

  lemma {:induction false} DigitOrder(a: string, b: string)
    requires IsDigits(a) && IsDigits(b) && |a| == |b|
    ensures Below(a, b) <==> Value(a) < Value(b)
    ensures a == b <==> Value(a) == Value(b)
  {
    if a != [] {
      var k := |a| - 1;
      assert a == a[..k] + [a[k]] && b == b[..k] + [b[k]];
      assert Value(a) == 10 * Value(a[..k]) + (a[k] as int - 48);
      assert Value(b) == 10 * Value(b[..k]) + (b[k] as int - 48);
      DigitOrder(a[..k], b[..k]);
      BelowByParts(a[..k], b[..k], [a[k]], [b[k]]);
      LastDigitOrder(a[k], b[k]);
    }
  }

  lemma {:induction false} PaddedDigits(n: nat, width: nat)
    ensures IsDigits(Padded(n, width)) && Value(Padded(n, width)) == n
    ensures width > 0 ==> (|Padded(n, width)| == width <==> n < Pow10(width)) && |Padded(n, width)| >= width
    decreases n, width
  {
    if n < 10 && width <= 1 {
      assert Value([Digit(n)]) == 10 * Value([]) + n;
      assert Pow10(1) == 10;
    } else {
      var front := Padded(n / 10, if width == 0 then 0 else width - 1);
      PaddedDigits(n / 10, if width == 0 then 0 else width - 1);
      assert Padded(n, width)[..|front|] == front;
      if width == 1 {
        assert n >= 10 && Pow10(1) == 10 && |front| >= 1;
      }
    }
  }

  lemma {:induction false} ValueIsBounded(s: string)
    requires IsDigits(s)
    ensures Value(s) < Pow10(|s|)
  {
    if s != [] {
      ValueIsBounded(s[..|s| - 1]);
    }
  }

  lemma NameIsRecognized(generation: nat)
    ensures Recognized(Name(generation)) <==> generation < Pow10(DIGITS)
    ensures Recognized(Name(generation)) ==> Generation(Name(generation)) == generation
  {
    var digits := Padded(generation, DIGITS);
    PaddedDigits(generation, DIGITS);
    assert Name(generation)[|PREFIX|..|PREFIX| + |digits|] == digits;
    assert |Name(generation)| == |PREFIX| + |digits| + |SUFFIX|;
  }

  function DigitsOf(name: string): string
    requires Recognized(name)
  {
    name[|PREFIX|..|PREFIX| + DIGITS]
  }

  lemma ThreeParts(name: string)
    requires Recognized(name)
    ensures name == PREFIX + (DigitsOf(name) + SUFFIX)
  {
    var n, m := |PREFIX|, |PREFIX| + DIGITS;
    assert name[n..] == name[n..m] + name[m..];
    assert name == name[..n] + name[n..];
  }

  /** Recognized names are ordered by their generations, and no two share one. */
  lemma RecognizedOrder(a: string, b: string)
    requires Recognized(a) && Recognized(b)
    ensures Below(a, b) <==> Generation(a) < Generation(b)
    ensures a == b <==> Generation(a) == Generation(b)
  {
    var x, y := DigitsOf(a), DigitsOf(b);
    ThreeParts(a);
    ThreeParts(b);
    BelowAfterSame(PREFIX, x + SUFFIX, y + SUFFIX);
    BelowByParts(x, y, SUFFIX, SUFFIX);
    BelowIsTotal(SUFFIX, SUFFIX);
    DigitOrder(x, y);
  }

  /** Below 10^20 the name order is the generation order; a larger generation gets a name the store never reads. */
  lemma NameOrder(a: nat, b: nat)
    ensures a < Pow10(DIGITS) && b < Pow10(DIGITS) ==> (Below(Name(a), Name(b)) <==> a < b)
    ensures a >= Pow10(DIGITS) ==> !Recognized(Name(a))
  {
    NameIsRecognized(a);
    NameIsRecognized(b);
    if a < Pow10(DIGITS) && b < Pow10(DIGITS) {
      RecognizedOrder(Name(a), Name(b));
    }
  }

  lemma Power20()
    ensures Pow10(20) == 100_000_000_000_000_000_000
  {
    assert Pow10(5) == 100_000;
    assert Pow10(10) == 10_000_000_000;
    assert Pow10(15) == 1_000_000_000_000_000;
  }

  /** A recognized name spells its generation in twenty decimal digits between `checkpoint-` and `.json`. */
  lemma NameSpellsGeneration(generation: nat) returns (digits: string)
    requires generation < 100_000_000_000_000_000_000
    ensures Name(generation) == "checkpoint-" + digits + ".json"
    ensures |digits| == 20 && IsDigits(digits) && Value(digits) == generation
  {
    Power20();
    PaddedDigits(generation, DIGITS);
    digits := Padded(generation, DIGITS);
  }
}
