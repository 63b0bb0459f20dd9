/** The key strings of the schema store (flr/internal/registry/schema_store.go):
    "schema:<id>" for records and "schema_oam:<operator>:<oam>" for the index.  Operator
    IDs may contain colons; the decimal after the last colon keeps index keys apart. */
module SchemaKeys {

  const PREFIX_SCHEMA := "schema:"
  const PREFIX_OAM_INDEX := "schema_oam:"

  function Digit(d: nat): (c: char)
    requires d < 10
    ensures c != ':' && c != '-'
  {
    "0123456789"[d]
  }

  function DigitValue(c: char): nat {
    if '0' <= c <= '9' then c as int - '0' as int else 0
  }

  function Digits(n: nat): (s: string)
    ensures s != [] && forall c :: c in s ==> c != ':' && c != '-'
  {
    if n < 10 then [Digit(n)] else Digits(n / 10) + [Digit(n % 10)]
  }

  function ParseDigits(s: string): nat {
    if s == [] then 0 else 10 * ParseDigits(s[..|s| - 1]) + DigitValue(s[|s| - 1])
  }

  lemma DigitsRoundTrip(n: nat)
    ensures ParseDigits(Digits(n)) == n
  {
    if n >= 10 {
      DigitsRoundTrip(n / 10);
      assert Digits(n)[..|Digits(n)| - 1] == Digits(n / 10);
    }
  }

  /** fmt's %d. */
  function Decimal(n: int): (s: string)
    ensures s != [] && ':' !in s
  {
    if n < 0 then "-" + Digits(-n) else Digits(n)
  }

  function ParseDecimal(s: string): int {
    if s != [] && s[0] == '-' then 0 - ParseDigits(s[1..]) else ParseDigits(s)
  }

  lemma DecimalRoundTrip(n: int)
    ensures ParseDecimal(Decimal(n)) == n
  {
    if n < 0 {
      DigitsRoundTrip(-n);
      assert Decimal(n)[1..] == Digits(-n);
    } else {
      DigitsRoundTrip(n);
      assert Digits(n)[0] in Digits(n);
    }
  }

  function PrimaryKey(id: string): string {
    PREFIX_SCHEMA + id
  }

  function IndexKey(operatorId: string, oamMode: int): string {
    PREFIX_OAM_INDEX + operatorId + ":" + Decimal(oamMode)
  }

  lemma PrimaryKeyIsInjective(a: string, b: string)
    requires PrimaryKey(a) == PrimaryKey(b)
    ensures a == b
  {
    assert PrimaryKey(a)[7..] == a && PrimaryKey(b)[7..] == b;
  }

  lemma KeySpacesAreDisjoint(id: string, operatorId: string, oamMode: int)
    ensures PrimaryKey(id) != IndexKey(operatorId, oamMode)
    ensures PREFIX_SCHEMA <= PrimaryKey(id) && !(PREFIX_SCHEMA <= IndexKey(operatorId, oamMode))
  {
    assert PrimaryKey(id)[6] == ':' && IndexKey(operatorId, oamMode)[6] == '_';
    assert PREFIX_SCHEMA[6] == ':';
  }

  lemma LastColon(x: string, d: string)
    requires ':' !in d
    ensures (x + ":" + d)[|x|] == ':'
    ensures forall i :: |x| < i < |x + ":" + d| ==> (x + ":" + d)[i] != ':'
  {
    forall i | |x| < i < |x + ":" + d| ensures (x + ":" + d)[i] != ':' {
      assert (x + ":" + d)[i] == d[i - |x| - 1];
    }
  }

  /** The last colon separates the decimal, whatever colons come before it. */
  lemma LastColonSplits(x: string, d: string, y: string, e: string)
    requires ':' !in d && ':' !in e && x + ":" + d == y + ":" + e
    ensures x == y && d == e
  {
    LastColon(x, d);
    LastColon(y, e);
    var s := x + ":" + d;
    assert |x| == |y|;
    assert x == s[..|x|] && y == (y + ":" + e)[..|y|];
    assert d == s[|x| + 1..] && e == (y + ":" + e)[|y| + 1..];
  }

  lemma IndexKeyIsInjective(op: string, oam: int, op': string, oam': int)
    requires IndexKey(op, oam) == IndexKey(op', oam')
    ensures op == op' && oam == oam'
  {
    var x, y := PREFIX_OAM_INDEX + op, PREFIX_OAM_INDEX + op';
    LastColonSplits(x, Decimal(oam), y, Decimal(oam'));
    assert x[11..] == op && y[11..] == op';
    DecimalRoundTrip(oam);
    DecimalRoundTrip(oam');
  }
}
