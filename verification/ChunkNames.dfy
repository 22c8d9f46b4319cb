/** The names the head split gives its tensors and constants; all of them differ. */
module ChunkNames {

  const DIGITS := "0123456789"

  function Decimal(n: nat): (s: string)
    ensures |s| > 0 && (|s| == 1 <==> n < 10)
  {
    if n < 10 then [DIGITS[n]] else Decimal(n / 10) + [DIGITS[n % 10]]
  }

  lemma {:induction false} DecimalInjective(m: nat, n: nat)
    requires Decimal(m) == Decimal(n)
    ensures m == n
  {
    var s, t := Decimal(m), Decimal(n);
    if m >= 10 {
      assert s[..|s| - 1] == Decimal(m / 10) && t[..|t| - 1] == Decimal(n / 10);
      DecimalInjective(m / 10, n / 10);
      assert s[|s| - 1] == DIGITS[m % 10] && t[|t| - 1] == DIGITS[n % 10];
    }
  }

  /** The number a string of decimal digits writes. */
  function ValueOf(s: string): int {
    if s == "" then 0 else 10 * ValueOf(s[..|s| - 1]) + (s[|s| - 1] as int - '0' as int)
  }

  /** Decimal writes n in the digits 0 to 9, with no zero in front of anything but itself. */
  lemma {:induction false} DecimalWrites(n: nat)
    ensures ValueOf(Decimal(n)) == n
    ensures forall i :: 0 <= i < |Decimal(n)| ==> '0' <= Decimal(n)[i] <= '9'
    ensures n > 0 ==> Decimal(n)[0] != '0'
  {
    Digit(n % 10);
    if n < 10 {
      assert Decimal(n)[..0] == "";
    } else {
      DecimalWrites(n / 10);
      assert Decimal(n)[..|Decimal(n)| - 1] == Decimal(n / 10);
    }
  }

  lemma Digit(d: nat)
    requires d < 10
    ensures DIGITS[d] as int - '0' as int == d && '0' <= DIGITS[d] <= '9' && (d > 0 ==> DIGITS[d] != '0')
  {
  }

  datatype Kind = ChunkIn | ChunkOut | Start | End | Axis

  function Prefix(k: Kind): string {
    match k
    case ChunkIn => "gs_A"
    case ChunkOut => "gs_T"
    case Start => "gs_st"
    case End => "gs_en"
    case Axis => "gs_ax"
  }

  function Name(k: Kind, i: nat): string {
    Prefix(k) + Decimal(i)
  }

  lemma NamesDiffer(k: Kind, i: nat, l: Kind, j: nat)
    ensures Name(k, i) == Name(l, j) <==> k == l && i == j
    ensures Name(k, i) != ""
  {
    var s, t := Name(k, i), Name(l, j);
    assert s[3] == Prefix(k)[3] && t[3] == Prefix(l)[3];
    if s == t {
      assert k == l;
      var n := |Prefix(k)|;
      assert s[n..] == Decimal(i) && t[n..] == Decimal(j);
      DecimalInjective(i, j);
    }
  }

  /** The script's own spellings, each followed by its index in decimal. */
  lemma NamesSpelled(i: nat)
    ensures Spells(Name(ChunkIn, i), "gs_A", i) && Spells(Name(ChunkOut, i), "gs_T", i)
    ensures Spells(Name(Start, i), "gs_st", i) && Spells(Name(End, i), "gs_en", i) && Spells(Name(Axis, i), "gs_ax", i)
  {
    hide Spells, Name;
    WordThenIndex(ChunkIn, i);
    WordThenIndex(ChunkOut, i);
    WordThenIndex(Start, i);
    WordThenIndex(End, i);
    WordThenIndex(Axis, i);
  }

  lemma WordThenIndex(k: Kind, i: nat)
    ensures Spells(Name(k, i), Prefix(k), i)
  {
    DecimalWrites(i);
    hide Prefix, Decimal, ValueOf;
    var s, n := Name(k, i), |Prefix(k)|;
    assert s[n..] == Decimal(i) && s[..n] == Prefix(k);
    forall j | n <= j < |s|
      ensures s[j] == Decimal(i)[j - n]
    {
    }
  }

  /** s is the given word followed by i in decimal, without leading zeros. */
  ghost predicate Spells(s: string, word: string, i: nat) {
    && |word| < |s| && s[..|word|] == word && ValueOf(s[|word|..]) == i
    && (forall j :: |word| <= j < |s| ==> '0' <= s[j] <= '9')
    && (i > 0 ==> s[|word|] != '0')
  }
}
