/** JSON trees and their text.

    A `char` stands for one C++ `char`. The tree is what `Json` and `JsonNode` hold: objects and
    arrays carry the validity flag of their parse. Numbers with a dot or an exponent stay the
    text they were read from. */
module JsonText {

  datatype Node =
    | Object(valid: bool, members: seq<Member>)
    | Array(valid: bool, items: seq<Node>)
    | Str(text: string)
    | Float(mantissa: string, exponent: string)
    | Int(i: int)
    | UInt(u: int)
    | Bool(b: bool)
    | Null

  datatype Member = Member(key: string, value: Node)

  const TWO_63: int := 0x8000_0000_0000_0000
  const TWO_64: int := 0x1_0000_0000_0000_0000

  predicate Valid(n: Node) {
    (n.Object? || n.Array?) ==> n.valid
  }

  predicate Less(a: string, b: string) {
    b != "" && (a == "" || a[0] < b[0] || (a[0] == b[0] && Less(a[1..], b[1..])))
  }

  lemma {:induction false} LessIsStrict(a: string, b: string)
    requires Less(a, b)
    ensures !Less(b, a) && a != b
    decreases |a|
  {
    if a != "" && a[0] == b[0] {
      LessIsStrict(a[1..], b[1..]);
    }
  }

  function Digits(n: nat): (s: string)
    ensures s != ""
  {
    var last := [('0' as int + n % 10) as char];
    if n < 10 then last else Digits(n / 10) + last
  }

  function Decimal(s: string): int {
    if s == "" then 0 else 10 * Decimal(s[..|s| - 1]) + (s[|s| - 1] as int - '0' as int)
  }

  predicate IsDigit(c: char) {
    '0' <= c <= '9'
  }

  lemma {:induction false} DecimalOfDigits(n: nat)
    ensures Decimal(Digits(n)) == n
    ensures forall i :: 0 <= i < |Digits(n)| ==> IsDigit(Digits(n)[i])
  {
    var last := [('0' as int + n % 10) as char];
    assert last[..0] == "";
    if n >= 10 {
      DecimalOfDigits(n / 10);
      assert Digits(n)[..|Digits(n)| - 1] == Digits(n / 10);
    }
  }

  function IntText(i: int): string {
    if i < 0 then "-" + Digits(-i) else Digits(i)
  }

  function Text(n: Node): (s: string)
    ensures s != "" || n.Float?
    decreases n, 1
  {
    match n
    case Object(_, members) => "{" + MembersText(members) + "}"
    case Array(_, items) => "[" + ItemsText(items) + "]"
    case Str(text) => "\"" + text + "\""
    case Float(mantissa, exponent) => mantissa + exponent
    case Int(i) => IntText(i)
    case UInt(u) => IntText(u)
    case Bool(b) => if b then "true" else "false"
    case Null => "null"
  }

  function MembersText(members: seq<Member>): string
    decreases members, 0
  {
    if members == [] then ""
    else
      "\"" + members[0].key + "\":" + Text(members[0].value)
      + (if |members| == 1 then "" else "," + MembersText(members[1..]))
  }

  function ItemsText(items: seq<Node>): string
    decreases items, 0
  {
    if items == [] then ""
    else Text(items[0]) + (if |items| == 1 then "" else "," + ItemsText(items[1..]))
  }
}
