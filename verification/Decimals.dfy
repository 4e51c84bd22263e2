/** Decimal notation, for bytes and for text alike. */
module Decimals {

  type Digit = d: nat | d < 10

  /** The digits of a number, without leading zeros. */
  function Digits(n: nat): (ds: seq<Digit>)
    ensures ds != [] && (n > 0 ==> ds[0] != 0) && (n == 0 ==> ds == [0])
  {
    if n < 10 then [n] else Digits(n / 10) + [n % 10]
  }

  function ValueOf(ds: seq<Digit>): nat {
    if ds == [] then 0 else 10 * ValueOf(ds[..|ds| - 1]) + ds[|ds| - 1]
  }

  lemma ValueSnoc(ds: seq<Digit>, d: Digit)
    ensures ValueOf(ds + [d]) == 10 * ValueOf(ds) + d
  {
    assert (ds + [d])[..|ds|] == ds;
  }

  lemma {:induction false} DigitsValue(n: nat)
    ensures ValueOf(Digits(n)) == n
  {
    if n < 10 {
      ValueSnoc([], n);
      assert [] + [n as Digit] == [n];
    } else {
      DigitsValue(n / 10);
      ValueSnoc(Digits(n / 10), n % 10);
    }
  }

  /** The number without its last `places` digits, and those digits. */
  function Front(n: nat, places: nat): nat {
    if places == 0 then n else Front(n / 10, places - 1)
  }

  function Back(n: nat, places: nat): (ds: seq<Digit>)
    ensures |ds| == places
  {
    if places == 0 then [] else Back(n / 10, places - 1) + [n % 10]
  }

  lemma {:induction false} FrontAndBack(n: nat, places: nat)
    ensures ValueOf(Digits(Front(n, places)) + Back(n, places)) == n
    decreases places
  {
    if places == 0 {
      DigitsValue(n);
      assert Digits(n) + [] == Digits(n);
    } else {
      FrontAndBack(n / 10, places - 1);
      var ds := Digits(Front(n, places)) + Back(n / 10, places - 1);
      ValueSnoc(ds, n % 10);
      assert Digits(Front(n, places)) + Back(n, places) == ds + [n % 10];
    }
  }
}
