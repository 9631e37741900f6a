/** JSON values and the text the printers are to produce for them. */
module JsonText {
  import opened Bytes
  import opened Literals

  /** The value of a cJSON item. A number is kept exactly as `mantissa * 10^exponent`. */
  datatype Json =
    | Null
    | False
    | True
    | Number(mantissa: int, exponent: int)
    | String(str: text)
    | Array(items: seq<Json>)
    | Object(members: seq<Member>)

  datatype Member = Member(name: text, value: Json)

  predicate IsInt32(n: int) { -0x8000_0000 <= n < 0x8000_0000 }

  /** Every number in the tree is a 32-bit integer, the case print_number renders with %d. */
  predicate Printable(t: Json) {
    match t
    case Number(m, e) => IsInt32(m) && e == 0
    case Array(items) => AllPrintable(items)
    case Object(ms) => MembersPrintable(ms)
    case _ => true
  }

  predicate AllPrintable(items: seq<Json>) {
    items == [] || (Printable(items[0]) && AllPrintable(items[1..]))
  }

  predicate MembersPrintable(ms: seq<Member>) {
    ms == [] || (Printable(ms[0].value) && MembersPrintable(ms[1..]))
  }

  const NULL: text := [110, 117, 108, 108]
  const TRUE: text := [116, 114, 117, 101]
  const FALSE: text := [102, 97, 108, 115, 101]

  function Digits(n: nat): (t: text)
    ensures |t| > 0
  {
    (if n < 10 then [] else Digits(n / 10)) + [ZERO + n % 10]
  }

  /** `%d`. */
  function IntText(n: int): (t: text)
    ensures |t| > 0
  {
    if n < 0 then [MINUS] + Digits(-n) else Digits(n)
  }

  function Tabs(n: int): (t: text)
    ensures |t| == if n < 0 then 0 else n
  {
    if n <= 0 then [] else [TAB] + Tabs(n - 1)
  }

  function If(fmt: bool, t: text): text {
    if fmt then t else []
  }

  /** The text of a value at nesting depth `d`; `fmt` asks for the formatted layout. */
  function ValueText(t: Json, d: nat, fmt: bool): (r: text)
    requires Printable(t)
    ensures |r| > 0
    decreases t, 1
  {
    match t
    case Null => NULL
    case False => FALSE
    case True => TRUE
    case Number(m, _) => IntText(m)
    case String(str) => Literal(str)
    case Array(items) => [LBRACKET] + ItemsText(items, d + 1, fmt) + [RBRACKET]
    case Object(ms) =>
      if ms == [] then [LBRACE] + If(fmt, [LF] + Tabs(d - 1)) + [RBRACE]
      else [LBRACE] + If(fmt, [LF]) + MembersText(ms, d + 1, fmt) + If(fmt, Tabs(d)) + [RBRACE]
  }

  function ItemsText(items: seq<Json>, d: nat, fmt: bool): text
    requires AllPrintable(items)
    decreases items, 0
  {
    if items == [] then []
    else ValueText(items[0], d, fmt)
         + (if |items| == 1 then [] else [COMMA] + If(fmt, [SPACE]) + ItemsText(items[1..], d, fmt))
  }

  function MembersText(ms: seq<Member>, d: nat, fmt: bool): text
    requires MembersPrintable(ms)
    decreases ms, 0
  {
    if ms == [] then []
    else MemberText(ms[0], |ms| > 1, d, fmt) + MembersText(ms[1..], d, fmt)
  }

  function MemberText(m: Member, more: bool, d: nat, fmt: bool): text
    requires Printable(m.value)
    decreases m, 0
  {
    NameText(m.name, d, fmt) + ValueText(m.value, d, fmt) + EndText(more, fmt)
  }

  /** A member up to its value. */
  function NameText(name: text, d: nat, fmt: bool): text {
    If(fmt, Tabs(d)) + Literal(name) + ([COLON] + If(fmt, [TAB]))
  }

  /** What follows the value of a member. */
  function EndText(more: bool, fmt: bool): text {
    If(more, [COMMA]) + If(fmt, [LF])
  }
}
