/**
 * Names used by the input splitter: the grouping key of a file name and the
 * names of the numbered part directories.
 */
module Naming {

  /**
   * The grouping key of a file name, `name.split('_')[0]`: the text before
   * the first underscore, or the whole name when there is none.
   */
  function Prefix(name: string): (p: string)
    ensures '_' !in p
    ensures p <= name
    ensures |p| < |name| ==> name[|p|] == '_'
  {
    if name == [] || name[0] == '_' then [] else [name[0]] + Prefix(name[1..])
  }

  /** The three facts stated by `Prefix`'s contract determine it. */
  lemma PrefixUnique(name: string, q: string)
    requires '_' !in q && q <= name
    requires |q| < |name| ==> name[|q|] == '_'
    ensures q == Prefix(name)
  {
    var p := Prefix(name);
    if |q| < |p| {
      assert false;
    } else if |p| < |q| {
      assert false;
    }
  }

  /** Whatever follows an underscore does not change the prefix of an underscore-free key. */
  lemma {:induction false} PrefixOfJoined(p: string, rest: string)
    requires '_' !in p
    ensures Prefix(p + "_" + rest) == p
  {
    PrefixUnique(p + "_" + rest, p);
  }

  /** The character of a decimal digit. */
  function DigitChar(d: nat): (c: char)
    requires d < 10
    ensures '0' <= c <= '9'
    ensures c as int - '0' as int == d
  {
    ('0' as int + d) as char
  }

  ghost predicate AllDigits(s: string) {
    forall i :: 0 <= i < |s| ==> '0' <= s[i] <= '9'
  }

  /** Python's `str(n)` of a natural number: its decimal digits, most significant first. */
  function Decimal(n: nat): (s: string)
    ensures |s| > 0 && AllDigits(s)
    ensures s[0] == '0' ==> n == 0
  {
    if n < 10 then [DigitChar(n)] else Decimal(n / 10) + [DigitChar(n % 10)]
  }

  /** The value of a string of decimal digits. */
  function ParseDecimal(s: string): nat
    requires AllDigits(s)
  {
    if s == [] then 0
    else 10 * ParseDecimal(s[..|s| - 1]) + (s[|s| - 1] as int - '0' as int)
  }

  /** Reading back the digits of `n` gives `n`. */
  lemma {:induction false} ParseDecimalOfDecimal(n: nat)
    ensures ParseDecimal(Decimal(n)) == n
  {
    if n >= 10 {
      var s := Decimal(n);
      assert s[..|s| - 1] == Decimal(n / 10);
      ParseDecimalOfDecimal(n / 10);
    }
  }

  /** Different numbers have different decimal representations. */
  lemma DecimalInjective(m: nat, n: nat)
    requires Decimal(m) == Decimal(n)
    ensures m == n
  {
    ParseDecimalOfDecimal(m);
    ParseDecimalOfDecimal(n);
  }

  /** The directory of part `i` of an oversized group: `f"{prefix}_part{i}"`. */
  function PartName(prefix: string, i: nat): string {
    prefix + "_part" + Decimal(i)
  }

  /** A part name holds a `_`, and what precedes its first `_` is the group's prefix. */
  lemma PartNamePrefix(prefix: string, i: nat)
    ensures '_' in PartName(prefix, i)
    ensures '_' !in prefix ==> Prefix(PartName(prefix, i)) == prefix
  {
    var r := PartName(prefix, i);
    assert r[|prefix|] == '_';
    assert r == prefix + "_" + ("part" + Decimal(i));
    if '_' !in prefix {
      PrefixOfJoined(prefix, "part" + Decimal(i));
    }
  }

  /** A part directory's name determines both the group's prefix and the part index. */
  lemma PartNameInjective(p: string, i: nat, q: string, j: nat)
    requires '_' !in p && '_' !in q
    requires PartName(p, i) == PartName(q, j)
    ensures p == q && i == j
  {
    PartNamePrefix(p, i);
    PartNamePrefix(q, j);
    assert p == q;
    var r := PartName(p, i);
    assert Decimal(i) == r[|p| + 5..];
    assert Decimal(j) == r[|q| + 5..];
    DecimalInjective(i, j);
  }
}
