/** What `JSON.stringify` prints. */
module JsonText {

  /** A JavaScript string: any sequence of UTF-16 code units, paired or not. */
  type Unit = u: nat | u < 0x1_0000 witness 0
  type JsString = seq<Unit>

  const QUOTE: Unit := 34
  const COMMA: Unit := 44
  const COLON: Unit := 58
  const BACKSLASH: Unit := 92
  const OPEN_ARRAY: Unit := 91
  const CLOSE_ARRAY: Unit := 93
  const OPEN_OBJECT: Unit := 123
  const CLOSE_OBJECT: Unit := 125
  const NULL_TEXT: JsString := [110, 117, 108, 108]
  const TRUE_TEXT: JsString := [116, 114, 117, 101]
  const FALSE_TEXT: JsString := [102, 97, 108, 115, 101]

  // ---- Strings ----

  predicate HighSurrogate(u: Unit) { 0xD800 <= u < 0xDC00 }

  predicate LowSurrogate(u: Unit) { 0xDC00 <= u < 0xE000 }

  /** A surrogate that is not half of a pair. */
  predicate Lone(s: JsString, i: nat)
    requires i < |s|
  {
    || (HighSurrogate(s[i]) && !(i + 1 < |s| && LowSurrogate(s[i + 1])))
    || (LowSurrogate(s[i]) && !(i > 0 && HighSurrogate(s[i - 1])))
  }

  /** A lower-case hexadecimal digit. */
  function Hex(d: nat): Unit
    requires d < 16
  {
    if d < 10 then 48 + d else 87 + d
  }

  function Escaped(u: Unit, lone: bool): JsString {
    if u == QUOTE then [BACKSLASH, QUOTE]
    else if u == BACKSLASH then [BACKSLASH, BACKSLASH]
    else if u == 8 then [BACKSLASH, 98]
    else if u == 9 then [BACKSLASH, 116]
    else if u == 10 then [BACKSLASH, 110]
    else if u == 12 then [BACKSLASH, 102]
    else if u == 13 then [BACKSLASH, 114]
    else if u < 32 || lone then [BACKSLASH, 117, Hex(u / 0x1000), Hex(u / 0x100 % 16), Hex(u / 0x10 % 16), Hex(u % 16)]
    else [u]
  }

  /** The rest of a string from unit `i` on, with its closing quote. */
  function Body(s: JsString, i: nat): JsString
    requires i <= |s|
    decreases |s| - i
  {
    if i == |s| then [QUOTE] else Escaped(s[i], Lone(s, i)) + Body(s, i + 1)
  }

  function Quote(s: JsString): JsString { [QUOTE] + Body(s, 0) }

  // ---- Values ----

  datatype Json =
    | JNull
    | JBool(b: bool)
    | JNum(text: JsString)
    | JStr(s: JsString)
    | JArr(items: seq<Json>)
    | JObj(members: seq<Member>)

  datatype Member = Member(key: JsString, value: Json)

  predicate Digits(t: JsString) { forall i :: 0 <= i < |t| ==> 48 <= t[i] <= 57 }

  predicate IntegerPart(t: JsString) { t != [] && Digits(t) && (t[0] == 48 ==> |t| == 1) }

  predicate FractionPart(t: JsString) { t == [] || (|t| >= 2 && t[0] == 46 && Digits(t[1..])) }

  predicate ExponentPart(t: JsString) {
    t == [] ||
    ((t[0] == 101 || t[0] == 69)
     && var digits := if |t| >= 2 && (t[1] == 43 || t[1] == 45) then t[2..] else t[1..];
        digits != [] && Digits(digits))
  }

  /** The number grammar of section 6 of RFC 8259: sign, integer part, fraction and exponent. */
  ghost predicate NumberText(t: JsString) {
    exists minus: JsString, whole: JsString, fraction: JsString, exponent: JsString ::
      t == minus + whole + fraction + exponent && (minus == [] || minus == [45])
      && IntegerPart(whole) && FractionPart(fraction) && ExponentPart(exponent)
  }

  ghost predicate Printable(j: Json) {
    match j
    case JNum(text) => NumberText(text)
    case JArr(items) => forall i :: 0 <= i < |items| ==> Printable(items[i])
    case JObj(members) => forall i :: 0 <= i < |members| ==> Printable(members[i].value)
    case _ => true
  }

  function Text(j: Json): JsString {
    match j
    case JNull => NULL_TEXT
    case JBool(b) => if b then TRUE_TEXT else FALSE_TEXT
    case JNum(text) => text
    case JStr(s) => Quote(s)
    case JArr(items) => [OPEN_ARRAY] + Elements(items)
    case JObj(members) => [OPEN_OBJECT] + MemberList(members)
  }

  function Elements(items: seq<Json>): JsString
    decreases items, |items| + 1
  {
    if items == [] then [CLOSE_ARRAY] else Text(items[0]) + MoreItems(items, 1)
  }

  function MoreItems(items: seq<Json>, i: nat): JsString
    requires i <= |items|
    decreases items, |items| - i
  {
    if i == |items| then [CLOSE_ARRAY] else [COMMA] + Text(items[i]) + MoreItems(items, i + 1)
  }

  /** One member, with whatever follows it. */
  function MemberThen(members: seq<Member>, i: nat, rest: JsString): JsString
    requires i < |members|
    decreases members, 0
  {
    Quote(members[i].key) + ([COLON] + (Text(members[i].value) + rest))
  }

  function MemberList(members: seq<Member>): JsString
    decreases members, |members| + 2
  {
    if members == [] then [CLOSE_OBJECT] else MemberThen(members, 0, MoreMembers(members, 1))
  }

  function MoreMembers(members: seq<Member>, i: nat): JsString
    requires i <= |members|
    decreases members, |members| - i + 1
  {
    if i == |members| then [CLOSE_OBJECT] else [COMMA] + MemberThen(members, i, MoreMembers(members, i + 1))
  }
}
