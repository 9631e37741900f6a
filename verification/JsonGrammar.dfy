/** What the recursive-descent parser accepts, as functions on the rest of the text. */
module JsonGrammar {
  import opened Bytes
  import opened Literals
  import opened JsonText

  /** `Overrun` means that a string literal has an incomplete escape, on which the C code leaves its buffers. */
  datatype Parse<+T> = Fail | Overrun | Ok(value: T, rest: text)

  /** `skip`: every character up to and including the blank counts as white space. */
  function Skip(s: text): (r: text)
    ensures |r| <= |s|
    ensures r == [] || r[0] > SPACE
  {
    if s != [] && s[0] <= SPACE then Skip(s[1..]) else s
  }

  predicate IsDigit(b: byte) { ZERO <= b <= NINE }

  /** The longest run of digits, as a number on top of `n`, with its length. */
  function ScanDigits(s: text, n: nat, count: nat): (r: (nat, nat, text))
    ensures |r.2| <= |s|
  {
    if s != [] && IsDigit(s[0]) then ScanDigits(s[1..], n * 10 + (s[0] - ZERO), count + 1)
    else (n, count, s)
  }

  /** The optional exponent of a number. */
  function ScanExponent(s: text): (r: (int, text))
    ensures |r.1| <= |s|
  {
    if Peek(s) != LOWER_E && Peek(s) != UPPER_E then (0, s)
    else
      var t := s[1..];
      if Peek(t) == PLUS then
        var (n, _, rest) := ScanDigits(t[1..], 0, 0); (n, rest)
      else if Peek(t) == MINUS then
        var (n, _, rest) := ScanDigits(t[1..], 0, 0); (0 - n, rest)
      else
        var (n, _, rest) := ScanDigits(t, 0, 0); (n, rest)
  }

  /** An optional zero and, behind it, digits that do not start with a zero. */
  function ScanInteger(t: text): (r: (nat, text))
    ensures |r.1| <= |t|
    ensures IsDigit(Peek(t)) ==> |r.1| < |t|
  {
    var u := if Peek(t) == ZERO then t[1..] else t;
    if ZERO < Peek(u) <= NINE then
      var (n, _, v) := ScanDigits(u, 0, 0); (n, v)
    else (0, u)
  }

  /** The optional fraction, on top of `n`, with its length. */
  function ScanFraction(v: text, n: nat): (r: (nat, nat, text))
    ensures |r.2| <= |v|
  {
    if Peek(v) == DOT && IsDigit(Peek(v[1..])) then ScanDigits(v[1..], n, 0) else (n, 0, v)
  }

  /** parse_number: a sign, a zero, digits, a fraction and an exponent, each of them optional. */
  function ParseNumber(s: text): (r: Parse<Json>)
    requires Peek(s) == MINUS || IsDigit(Peek(s))
    ensures r.Ok? && r.value.Number? && |r.rest| < |s|
  {
    var neg := Peek(s) == MINUS;
    var (n, v) := ScanInteger(if neg then s[1..] else s);
    var (m, scale, w) := ScanFraction(v, n);
    var (e, rest) := ScanExponent(w);
    var mantissa: int := m;
    Ok(Number(if neg then -mantissa else mantissa, e - scale), rest)
  }

  function ParseString(s: text): (r: Parse<text>)
    ensures r.Ok? ==> |r.rest| < |s|
  {
    if Peek(s) != QUOTE then Fail
    else if !WellEscaped(s[1..]) then Overrun
    else Ok(Decoded(s[1..]), s[1 + LiteralLength(s[1..])..])
  }

  function Map<T, U>(p: Parse<T>, f: T -> U): (r: Parse<U>)
    ensures r.Ok? <==> p.Ok?
    ensures r.Ok? ==> r.rest == p.rest
  {
    match p
    case Fail => Fail
    case Overrun => Overrun
    case Ok(v, rest) => Ok(f(v), rest)
  }

  function ParseValue(s: text): (r: Parse<Json>)
    ensures r.Ok? ==> |r.rest| < |s|
    decreases |s|, 0
  {
    if NULL <= s then Ok(Null, s[|NULL|..])
    else if FALSE <= s then Ok(False, s[|FALSE|..])
    else if TRUE <= s then Ok(True, s[|TRUE|..])
    else if s == [] then Fail
    else if s[0] == QUOTE then Map(ParseString(s), str => String(str))
    else if s[0] == MINUS || IsDigit(s[0]) then ParseNumber(s)
    else if s[0] == LBRACKET then
      var t := Skip(s[1..]);
      if Peek(t) == RBRACKET then Ok(Array([]), t[1..])
      else Map(ParseItems(t), items => Array(items))
    else if s[0] == LBRACE then
      var t := Skip(s[1..]);
      if Peek(t) == RBRACE then Ok(Object([]), t[1..])
      else Map(ParseMembers(t), ms => Object(ms))
    else Fail
  }

  /** A value behind white space. */
  function ParseSkipped(s: text): (r: Parse<Json>)
    ensures r.Ok? ==> |r.rest| < |s|
    decreases |s|, 1
  {
    ParseValue(Skip(s))
  }

  /** The items of an array up to and including the closing bracket. */
  function ParseItems(s: text): (r: Parse<seq<Json>>)
    ensures r.Ok? ==> |r.rest| < |s|
    decreases |s|, 2
  {
    match ParseSkipped(s)
    case Fail => Fail
    case Overrun => Overrun
    case Ok(v, rest) =>
      var t := Skip(rest);
      if Peek(t) == RBRACKET then Ok([v], t[1..])
      else if Peek(t) != COMMA then Fail
      else
        match ParseItems(t[1..])
        case Fail => Fail
        case Overrun => Overrun
        case Ok(vs, end) => Ok([v] + vs, end)
  }

  /** What follows the white space behind an item. */
  function ItemsAfter(t: text): Parse<seq<Json>> {
    if Peek(t) == RBRACKET then Ok([], t[1..])
    else if Peek(t) == COMMA then ParseItems(t[1..])
    else Fail
  }

  /** One member of an object. */
  function ParseMember(s: text): (r: Parse<Member>)
    ensures r.Ok? ==> |r.rest| < |s|
    decreases |s|, 2
  {
    NamedValue(Skip(s))
  }

  /** A name, a colon and a value. */
  function NamedValue(s: text): (r: Parse<Member>)
    ensures r.Ok? ==> |r.rest| < |s|
    decreases |s|, 1
  {
    match ParseString(s)
    case Fail => Fail
    case Overrun => Overrun
    case Ok(name, rest) =>
      var t := Skip(rest);
      if Peek(t) != COLON then Fail
      else
        match ParseSkipped(t[1..])
        case Fail => Fail
        case Overrun => Overrun
        case Ok(v, end) => Ok(Member(name, v), end)
  }

  /** The members of an object up to and including the closing brace. */
  function ParseMembers(s: text): (r: Parse<seq<Member>>)
    ensures r.Ok? ==> |r.rest| < |s|
    decreases |s|, 3
  {
    match ParseMember(s)
    case Fail => Fail
    case Overrun => Overrun
    case Ok(m, rest) =>
      var t := Skip(rest);
      if Peek(t) == RBRACE then Ok([m], t[1..])
      else if Peek(t) != COMMA then Fail
      else
        match ParseMembers(t[1..])
        case Fail => Fail
        case Overrun => Overrun
        case Ok(ms, end) => Ok([m] + ms, end)
  }

  /** What follows the white space behind a member. */
  function MembersAfter(t: text): Parse<seq<Member>> {
    if Peek(t) == RBRACE then Ok([], t[1..])
    else if Peek(t) == COMMA then ParseMembers(t[1..])
    else Fail
  }

  /** `p` is `q` with `vs` in front. */
  predicate Joined<T(==)>(p: Parse<seq<T>>, vs: seq<T>, q: Parse<seq<T>>) {
    (p.Fail? <==> q.Fail?) && (p.Overrun? <==> q.Overrun?)
    && (p.Ok? ==> p.value == vs + q.value && p.rest == q.rest)
  }

  lemma JoinedTwice<T>(p: Parse<seq<T>>, vs: seq<T>, q: Parse<seq<T>>, v: T, r: Parse<seq<T>>)
    requires Joined(p, vs, q) && Joined(q, [v], r)
    ensures Joined(p, vs + [v], r)
  {
    if r.Ok? {
      assert vs + ([v] + r.value) == vs + [v] + r.value;
    }
  }

  /** Reading items one at a time is reading the whole list. */
  lemma {:induction false} FirstItem(s: text)
    requires ParseSkipped(s).Ok?
    ensures Joined(ParseItems(s), [ParseSkipped(s).value], ItemsAfter(Skip(ParseSkipped(s).rest)))
  {
  }

  lemma {:induction false} FirstMember(s: text)
    requires ParseMember(s).Ok?
    ensures Joined(ParseMembers(s), [ParseMember(s).value], MembersAfter(Skip(ParseMember(s).rest)))
  {
  }

  /** cJSON_ParseWithOpts. */
  function ParseDocument(s: text, requireNul: bool): Parse<Json> {
    match ParseSkipped(s)
    case Fail => Fail
    case Overrun => Overrun
    case Ok(v, rest) =>
      if !requireNul then Ok(v, rest)
      else if Skip(rest) == [] then Ok(v, [])
      else Fail
  }
}
