/** The decorated names of the host's function table: the number behind the '@' is the argument size in bytes. */
module GlideSymbols {

  function Digit(d: nat): char
    requires d < 10
  {
    '0' + d as char
  }

  /** A number the way the table writes it. */
  function Decimal(n: nat): string {
    if n < 10 then [Digit(n)] else Decimal(n / 10) + [Digit(n % 10)]
  }

  predicate IsDigit(c: char) {
    '0' <= c <= '9'
  }

  /** The value of the digits of s. */
  function Value(s: string): nat
    requires forall k | 0 <= k < |s| :: IsDigit(s[k])
  {
    if s == "" then 0 else assert IsDigit(s[|s| - 1]); 10 * Value(s[..|s| - 1]) + (s[|s| - 1] as int - '0' as int)
  }

  lemma {:induction false} ValueOfDecimal(n: nat)
    ensures forall k | 0 <= k < |Decimal(n)| :: IsDigit(Decimal(n)[k])
    ensures Value(Decimal(n)) == n
  {
    if n < 10 {
      assert Decimal(n)[..0] == "";
    } else {
      ValueOfDecimal(n / 10);
      assert Decimal(n)[..|Decimal(n)| - 1] == Decimal(n / 10);
    }
  }

  /** The loop of getNumArgs: behind the first '@', as many digits as there are, then bytes to words. */
  method GetNumArgs(sym: string) returns (n: nat)
    requires '@' in sym
    ensures forall name: string, cb: nat | '@' !in name && sym == name + "@" + Decimal(cb) :: n == cb / 4
  {
    var p := 0;
    while sym[p] != '@'
      invariant p < |sym| && '@' in sym[p..] && '@' !in sym[..p]
      decreases |sym| - p
    {
      p := p + 1;
    }
    p := p + 1;
    var q, value := p, 0;
    while q < |sym| && IsDigit(sym[q])
      invariant p <= q <= |sym|
      invariant forall k | p <= k < q :: IsDigit(sym[k])
      invariant value == Value(sym[p..q])
    {
      assert sym[p..q + 1][..q - p] == sym[p..q];
      value := 10 * value + (sym[q] as int - '0' as int);
      q := q + 1;
    }
    n := value / 4;
    forall name: string, cb: nat | '@' !in name && sym == name + "@" + Decimal(cb)
      ensures n == cb / 4
    {
      ValueOfDecimal(cb);
      FirstAt(sym, name, p - 1);
      assert sym[p..] == Decimal(cb);
      assert sym[p..q] == Decimal(cb);
    }
  }

  lemma FirstAt(sym: string, name: string, p: nat)
    requires p < |sym| && sym[p] == '@' && '@' !in sym[..p]
    requires '@' !in name && |name| < |sym| && sym[..|name|] == name && sym[|name|] == '@'
    ensures p == |name|
  {
  }
}
