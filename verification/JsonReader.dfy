/** A reader of JSON, written from the grammar of RFC 8259 (sections 3 to 7, without insignificant white space),
    and what it makes of printed values. */
module JsonReader {
  import opened Prelude
  import opened JsonText

  /** What was read from the front of a text, and what is left of the text. */
  datatype Front<T> = Unread | Read(value: T, rest: JsString)

  predicate StartsWith(t: JsString, word: string) {
    |word| <= |t| && forall i :: 0 <= i < |word| ==> t[i] == word[i] as int
  }

  /** A hexadecimal digit, in either case. */
  function DigitValue(u: Unit): (r: Option<nat>)
    ensures r.Some? ==> r.value < 16
  {
    if '0' as int <= u <= '9' as int then Some(u - '0' as int)
    else if 'a' as int <= u <= 'f' as int then Some(u - 'a' as int + 10)
    else if 'A' as int <= u <= 'F' as int then Some(u - 'A' as int + 10)
    else None
  }

  /** The unit that a one-letter escape stands for. */
  function EscapeValue(u: Unit): Option<Unit> {
    if u == '"' as int then Some(34)
    else if u == '\\' as int then Some(92)
    else if u == '/' as int then Some(47)
    else if u == 'b' as int then Some(8)
    else if u == 't' as int then Some(9)
    else if u == 'n' as int then Some(10)
    else if u == 'f' as int then Some(12)
    else if u == 'r' as int then Some(13)
    else None
  }

  /** The unit that four hexadecimal digits stand for. */
  function CodeOf(t: JsString): Option<Unit>
    requires |t| == 4
  {
    var a, b, c, d := DigitValue(t[0]), DigitValue(t[1]), DigitValue(t[2]), DigitValue(t[3]);
    if a.None? || b.None? || c.None? || d.None? then None
    else
      Some(4096 * a.value + 256 * b.value + 16 * c.value + d.value)
  }

  /** One character of a string: itself, or an escape. Control characters, quote and backslash must be escaped. */
  function ReadUnit(t: JsString): (r: Front<Unit>)
    ensures r.Read? ==> |r.rest| < |t|
  {
    if t == [] then Unread
    else if t[0] == '\\' as int then
      if |t| >= 6 && t[1] == 'u' as int then
        if CodeOf(t[2..6]).Some? then Read(CodeOf(t[2..6]).value, t[6..]) else Unread
      else if |t| >= 2 && EscapeValue(t[1]).Some? then Read(EscapeValue(t[1]).value, t[2..])
      else Unread
    else if t[0] < 32 || t[0] == '"' as int then Unread
    else Read(t[0], t[1..])
  }

  /** The rest of a string, behind its opening quote. */
  function ReadChars(t: JsString): (r: Front<JsString>)
    ensures r.Read? ==> |r.rest| < |t|
    decreases |t|
  {
    if t != [] && t[0] == '"' as int then Read([], t[1..])
    else
      match ReadUnit(t)
      case Unread => Unread
      case Read(u, rest) =>
        match ReadChars(rest)
        case Unread => Unread
        case Read(s, rest') => Read([u] + s, rest')
  }

  function RunLength(t: JsString): (n: nat)
    ensures n <= |t|
  {
    if t == [] || !NumberUnit(t[0]) then 0 else 1 + RunLength(t[1..])
  }

  /** The characters of numbers: digits, signs, point and exponent. */
  predicate NumberUnit(u: Unit) {
    || '0' as int <= u <= '9' as int
    || u == '+' as int || u == '-' as int || u == '.' as int || u == 'e' as int || u == 'E' as int
  }

  ghost function ReadValue(t: JsString): (r: Front<Json>)
    ensures r.Read? ==> |r.rest| < |t|
    decreases |t|, 0
  {
    if StartsWith(t, "null") then Read(JNull, t[4..])
    else if StartsWith(t, "true") then Read(JBool(true), t[4..])
    else if StartsWith(t, "false") then Read(JBool(false), t[5..])
    else if StartsWith(t, "\"") then
      match ReadChars(t[1..])
      case Unread => Unread
      case Read(s, rest) => Read(JStr(s), rest)
    else if StartsWith(t, "[]") then Read(JArr([]), t[2..])
    else if StartsWith(t, "[") then
      match ReadItems(t[1..])
      case Unread => Unread
      case Read(items, rest) => Read(JArr(items), rest)
    else if StartsWith(t, "{}") then Read(JObj([]), t[2..])
    else if StartsWith(t, "{") then
      match ReadMembers(t[1..])
      case Unread => Unread
      case Read(members, rest) => Read(JObj(members), rest)
    else if NumberText(t[..RunLength(t)]) && RunLength(t) > 0 then Read(JNum(t[..RunLength(t)]), t[RunLength(t)..])
    else Unread
  }

  /** One or more values, separated by commas, and the closing bracket. */
  ghost function ReadItems(t: JsString): (r: Front<seq<Json>>)
    ensures r.Read? ==> |r.rest| < |t|
    decreases |t|, 1
  {
    match ReadValue(t)
    case Unread => Unread
    case Read(v, rest) =>
      if StartsWith(rest, "]") then Read([v], rest[1..])
      else if StartsWith(rest, ",") then
        match ReadItems(rest[1..])
        case Unread => Unread
        case Read(items, rest') => Read([v] + items, rest')
      else Unread
  }

  /** One or more members, each a string, a colon and a value, separated by commas, and the closing brace. */
  ghost function ReadMembers(t: JsString): (r: Front<seq<Member>>)
    ensures r.Read? ==> |r.rest| < |t|
    decreases |t|, 1
  {
    match ReadMember(t)
    case Unread => Unread
    case Read(m, rest) =>
      if StartsWith(rest, "}") then Read([m], rest[1..])
      else if StartsWith(rest, ",") then
        match ReadMembers(rest[1..])
        case Unread => Unread
        case Read(members, rest') => Read([m] + members, rest')
      else Unread
  }

  ghost function ReadMember(t: JsString): (r: Front<Member>)
    ensures r.Read? ==> |r.rest| < |t|
    decreases |t|, 0
  {
    if !StartsWith(t, "\"") then Unread
    else
      match ReadChars(t[1..])
      case Unread => Unread
      case Read(key, rest) =>
        if !StartsWith(rest, ":") then Unread
        else
          match ReadValue(rest[1..])
          case Unread => Unread
          case Read(v, rest') => Read(Member(key, v), rest')
  }

  /** The value that a whole text stands for. */
  ghost function ReadText(t: JsString): Option<Json> {
    match ReadValue(t)
    case Unread => None
    case Read(j, rest) => if rest == [] then Some(j) else None
  }

  // ---- Reading strings back ----

  lemma HexIsDigit(d: nat)
    requires d < 16
    ensures DigitValue(Hex(d)) == Some(d)
  {}

  lemma FourDigits(u: Unit)
    ensures 4096 * (u / 0x1000) + 256 * (u / 0x100 % 16) + 16 * (u / 0x10 % 16) + u % 16 == u
    ensures u / 0x1000 < 16
  {
    NextDigit(u, u / 0x10);
    NextDigit(u / 0x10, u / 0x100);
    NextDigit(u / 0x100, u / 0x1000);
  }

  lemma NextDigit(n: nat, above: nat)
    requires above == n / 16
    ensures n == 16 * above + n % 16
  {}

  lemma CodeIsRead(u: Unit)
    ensures u / 0x1000 < 16
    ensures CodeOf([Hex(u / 0x1000), Hex(u / 0x100 % 16), Hex(u / 0x10 % 16), Hex(u % 16)]) == Some(u)
  {
    hide Hex, DigitValue;
    FourDigits(u);
    HexIsDigit(u / 0x1000);
    HexIsDigit(u / 0x100 % 16);
    HexIsDigit(u / 0x10 % 16);
    HexIsDigit(u % 16);
  }

  lemma UnitIsRead(u: Unit, lone: bool, x: JsString)
    ensures ReadUnit(Escaped(u, lone) + x) == Read(u, x)
    ensures (Escaped(u, lone) + x)[0] != '"' as int
  {
    hide Hex, CodeOf;
    var t := Escaped(u, lone) + x;
    CodeIsRead(u);
    if |Escaped(u, lone)| == 6 {
      assert t[2..6] == [Hex(u / 0x1000), Hex(u / 0x100 % 16), Hex(u / 0x10 % 16), Hex(u % 16)];
      assert t[6..] == x;
    } else if |Escaped(u, lone)| == 2 {
      assert t[2..] == x;
    } else {
      assert t[1..] == x;
    }
  }

  lemma {:induction false} CharsAreRead(s: JsString, i: nat, x: JsString)
    requires i <= |s|
    ensures ReadChars(Body(s, i) + x) == Read(s[i..], x)
    decreases |s| - i
  {
    hide ReadUnit, Escaped, Lone;
    var t := Body(s, i) + x;
    if i == |s| {
      assert t[1..] == x && t[0] == QUOTE && s[i..] == [];
    } else {
      var e := Escaped(s[i], Lone(s, i));
      assert t == e + (Body(s, i + 1) + x);
      UnitIsRead(s[i], Lone(s, i), Body(s, i + 1) + x);
      CharsAreRead(s, i + 1, x);
      assert s[i..] == [s[i]] + s[i + 1..];
    }
  }

  lemma StringIsRead(s: JsString, x: JsString)
    ensures StartsWith(Quote(s) + x, "\"") && ReadChars((Quote(s) + x)[1..]) == Read(s, x)
  {
    hide ReadChars;
    CharsAreRead(s, 0, x);
    assert (Quote(s) + x)[1..] == Body(s, 0) + x && s[0..] == s;
  }

  // ---- Reading numbers back ----

  /** What may follow a value: nothing, or a unit no number text contains. */
  predicate Ends(x: JsString) { x == [] || x[0] == COMMA || x[0] == CLOSE_ARRAY || x[0] == CLOSE_OBJECT }

  lemma NumberHasNumberUnits(t: JsString)
    requires NumberText(t)
    ensures t != [] && (t[0] == 45 || 48 <= t[0] <= 57) && forall i :: 0 <= i < |t| ==> NumberUnit(t[i])
  {
    var minus: JsString, whole: JsString, fraction: JsString, exponent: JsString :|
      t == minus + whole + fraction + exponent && (minus == [] || minus == [45])
      && IntegerPart(whole) && FractionPart(fraction) && ExponentPart(exponent);
    FractionUnits(fraction);
    ExponentUnits(exponent);
    assert t[0] == if minus == [] then whole[0] else 45;
  }

  lemma FractionUnits(t: JsString)
    requires FractionPart(t)
    ensures forall i :: 0 <= i < |t| ==> NumberUnit(t[i])
  {
    if t != [] { assert t == [t[0]] + t[1..]; }
  }

  lemma ExponentUnits(t: JsString)
    requires ExponentPart(t)
    ensures forall i :: 0 <= i < |t| ==> NumberUnit(t[i])
  {
    if |t| >= 2 && (t[1] == 43 || t[1] == 45) { assert t == [t[0], t[1]] + t[2..]; } else if t != [] { assert t == [t[0]] + t[1..]; }
  }

  lemma {:induction false} RunEnds(s: JsString, x: JsString)
    requires (forall i :: 0 <= i < |s| ==> NumberUnit(s[i])) && Ends(x)
    ensures RunLength(s + x) == |s|
  {
    if s == [] {
      assert s + x == x;
    } else {
      assert (s + x)[1..] == s[1..] + x;
      RunEnds(s[1..], x);
    }
  }

  lemma NumberIsRead(text: JsString, x: JsString)
    requires NumberText(text) && Ends(x)
    ensures ReadValue(text + x) == Read(JNum(text), x)
  {
    hide NumberText, NumberUnit;
    NumberHasNumberUnits(text);
    RunEnds(text, x);
    var t := text + x;
    assert t[..|text|] == text && t[|text|..] == x;
    assert t[0] == text[0];
  }

  // ---- Reading values back ----

  /** The unit that a printed value begins with tells what it is. */
  lemma ValueBegins(j: Json, x: JsString)
    requires Printable(j)
    ensures Text(j) != [] && (Text(j) + x)[0] == Text(j)[0]
    ensures Text(j)[0] != CLOSE_ARRAY
  {
    hide NumberText;
    if j.JNum? { NumberHasNumberUnits(j.text); }
  }

  lemma LiteralIsRead(j: Json, x: JsString)
    requires j.JNull? || j.JBool?
    ensures ReadValue(Text(j) + x) == Read(j, x)
  {
    var t := Text(j) + x;
    assert t[|Text(j)|..] == x;
    match j {
      case JNull => assert StartsWith(t, "null");
      case JBool(b) =>
        assert "null"[0] == 'n' && "true"[0] == 't' && "false"[0] == 'f';
        assert t[0] == if b then 't' as int else 'f' as int;
        assert if b then StartsWith(t, "true") else StartsWith(t, "false");
    }
  }

  lemma MoreItemsEnd(items: seq<Json>, i: nat, x: JsString)
    requires i <= |items|
    ensures Ends(MoreItems(items, i) + x)
    ensures i == |items| ==> MoreItems(items, i) + x == [CLOSE_ARRAY] + x
    ensures i < |items| ==> MoreItems(items, i) + x == [COMMA] + (Text(items[i]) + (MoreItems(items, i + 1) + x))
  {
    hide Text;
  }

  lemma MoreMembersEnd(members: seq<Member>, i: nat, x: JsString)
    requires i <= |members|
    ensures Ends(MoreMembers(members, i) + x)
    ensures i == |members| ==> MoreMembers(members, i) + x == [CLOSE_OBJECT] + x
    ensures i < |members| ==> MoreMembers(members, i) + x == [COMMA] + MemberThen(members, i, MoreMembers(members, i + 1) + x)
  {
    hide MemberThen;
    if i < |members| {
      var rest := MoreMembers(members, i + 1);
      assert [COMMA] + MemberThen(members, i, rest) + x == [COMMA] + (MemberThen(members, i, rest) + x);
      ThenMore(members, i, rest, x);
    }
  }

  /** What follows a member may be put together with what follows that. */
  lemma ThenMore(members: seq<Member>, i: nat, rest: JsString, x: JsString)
    requires i < |members|
    ensures MemberThen(members, i, rest) + x == MemberThen(members, i, rest + x)
  {
    hide Text, Quote;
    var q, t := Quote(members[i].key), Text(members[i].value);
    assert (t + rest) + x == t + (rest + x);
    assert ([COLON] + (t + rest)) + x == [COLON] + (t + (rest + x));
  }

  /** A printed value, followed by whatever may follow one, is read back as it was. */
  lemma {:induction false} ValueIsRead(j: Json, x: JsString)
    requires Printable(j) && Ends(x)
    ensures ReadValue(Text(j) + x) == Read(j, x)
    decreases j, 1
  {
    hide Text, ReadChars, ReadItems, ReadMembers, Quote, NumberText;
    match j {
      case JNull => LiteralIsRead(j, x);
      case JBool(_) => LiteralIsRead(j, x);
      case JNum(text) => assert Text(j) == text by { TextOf(j); } NumberIsRead(text, x);
      case JStr(s) => assert Text(j) == Quote(s) by { TextOf(j); } StringIsRead(s, x); QuoteIsNoLiteral(Quote(s) + x);
      case JArr(items) => ArrayIsRead(items, x);
      case JObj(members) => ObjectIsRead(members, x);
    }
  }

  lemma TextOf(j: Json)
    ensures j.JNum? ==> Text(j) == j.text
    ensures j.JStr? ==> Text(j) == Quote(j.s)
    ensures j.JArr? ==> Text(j) == [OPEN_ARRAY] + Elements(j.items)
    ensures j.JObj? ==> Text(j) == [OPEN_OBJECT] + MemberList(j.members)
  {
    hide Elements, MemberList, Quote;
  }

  lemma QuoteIsNoLiteral(t: JsString)
    requires StartsWith(t, "\"")
    ensures !StartsWith(t, "null") && !StartsWith(t, "true") && !StartsWith(t, "false")
  {
    assert t[0] == "\""[0] as int && "null"[0] == 'n' && "true"[0] == 't' && "false"[0] == 'f';
  }

  lemma {:induction false} ArrayIsRead(items: seq<Json>, x: JsString)
    requires Printable(JArr(items)) && Ends(x)
    ensures ReadValue(Text(JArr(items)) + x) == Read(JArr(items), x)
    decreases JArr(items), 0
  {
    hide Text, MoreItems, ReadItems, ReadMembers, ReadChars, NumberText;
    TextOf(JArr(items));
    var t := Text(JArr(items)) + x;
    assert t[0] == OPEN_ARRAY && t[1..] == Elements(items) + x;
    if items == [] {
      assert t[1] == CLOSE_ARRAY && t[2..] == x;
    } else {
      var rest := MoreItems(items, 1) + x;
      assert Elements(items) + x == Text(items[0]) + rest;
      ValueBegins(items[0], rest);
      assert t[1] == (Text(items[0]) + rest)[0];
      ItemsAreRead(items, 0, x);
      assert items[0..] == items;
    }
  }

  lemma {:induction false} ItemsAreRead(items: seq<Json>, i: nat, x: JsString)
    requires i < |items| && Printable(JArr(items))
    ensures ReadItems(Text(items[i]) + (MoreItems(items, i + 1) + x)) == Read(items[i..], x)
    decreases items, |items| - i
  {
    hide Text, MoreItems, ReadValue, NumberText;
    var rest := MoreItems(items, i + 1) + x;
    MoreItemsEnd(items, i + 1, x);
    ValueIsRead(items[i], rest);
    if i + 1 == |items| {
      assert rest[1..] == x && items[i..] == [items[i]];
    } else {
      ItemsAreRead(items, i + 1, x);
      assert rest[1..] == Text(items[i + 1]) + (MoreItems(items, i + 2) + x);
      assert items[i..] == [items[i]] + items[i + 1..];
    }
  }

  lemma {:induction false} ObjectIsRead(members: seq<Member>, x: JsString)
    requires Printable(JObj(members)) && Ends(x)
    ensures ReadValue(Text(JObj(members)) + x) == Read(JObj(members), x)
    decreases JObj(members), 0
  {
    hide Text, MoreMembers, MemberThen, ReadItems, ReadMembers, ReadChars, NumberText;
    TextOf(JObj(members));
    var t := Text(JObj(members)) + x;
    assert t[0] == OPEN_OBJECT && t[1..] == MemberList(members) + x;
    if members == [] {
      assert t[1] == CLOSE_OBJECT && t[2..] == x;
    } else {
      ThenMore(members, 0, MoreMembers(members, 1), x);
      var rest := MoreMembers(members, 1) + x;
      assert t[1..] == MemberThen(members, 0, rest);
      MemberBegins(members, 0, rest);
      assert t[1] == t[1..][0];
      MembersAreRead(members, 0, x);
      assert members[0..] == members;
    }
  }

  lemma MemberBegins(members: seq<Member>, i: nat, rest: JsString)
    requires i < |members|
    ensures MemberThen(members, i, rest) != [] && MemberThen(members, i, rest)[0] == QUOTE
  {
    hide Text;
  }

  lemma {:induction false} MembersAreRead(members: seq<Member>, i: nat, x: JsString)
    requires i < |members| && Printable(JObj(members))
    ensures ReadMembers(MemberThen(members, i, MoreMembers(members, i + 1) + x)) == Read(members[i..], x)
    decreases members, |members| - i
  {
    hide MoreMembers, MemberThen, ReadMember, NumberText;
    var rest := MoreMembers(members, i + 1) + x;
    MoreMembersEnd(members, i + 1, x);
    MemberIsRead(members, i, rest);
    if i + 1 == |members| {
      assert rest[1..] == x && members[i..] == [members[i]];
    } else {
      MembersAreRead(members, i + 1, x);
      assert rest[1..] == MemberThen(members, i + 1, MoreMembers(members, i + 2) + x);
      assert members[i..] == [members[i]] + members[i + 1..];
    }
  }

  lemma {:induction false} MemberIsRead(members: seq<Member>, i: nat, x: JsString)
    requires i < |members| && Printable(members[i].value) && Ends(x)
    ensures ReadMember(MemberThen(members, i, x)) == Read(members[i], x)
    decreases members, 0
  {
    hide Text, Quote, ReadChars, ReadValue, NumberText;
    var rest := [COLON] + (Text(members[i].value) + x);
    StringIsRead(members[i].key, rest);
    ValueIsRead(members[i].value, x);
    assert rest[1..] == Text(members[i].value) + x;
  }

  // ---- Main results ----

  /** What is printed is read back as what it was. */
  lemma PrintedIsReadBack(j: Json)
    requires Printable(j)
    ensures ReadText(Text(j)) == Some(j)
  {
    hide Text, ReadValue;
    ValueIsRead(j, []);
    assert Text(j) + [] == Text(j);
  }

  /** Two values whose print is followed by something that ends a value: if the texts agree, so do the
      values, and so does what follows. */
  lemma TextIsReadable(a: Json, b: Json, x: JsString, y: JsString)
    requires Printable(a) && Printable(b) && Ends(x) && Ends(y) && Text(a) + x == Text(b) + y
    ensures a == b && x == y
  {
    hide Text, ReadValue;
    ValueIsRead(a, x);
    ValueIsRead(b, y);
  }

  lemma QuoteIsReadable(s: JsString, t: JsString, x: JsString, y: JsString)
    requires Quote(s) + x == Quote(t) + y
    ensures s == t && x == y
  {
    hide Quote, ReadChars;
    StringIsRead(s, x);
    StringIsRead(t, y);
  }

  // ---- What is escaped ----

  /** A surrogate without its other half: a high one that no low one follows, or a low one that follows no high one. */
  predicate Unpaired(s: JsString, i: nat)
    requires i < |s|
  {
    || (0xD800 <= s[i] <= 0xDBFF && (i + 1 == |s| || !(0xDC00 <= s[i + 1] <= 0xDFFF)))
    || (0xDC00 <= s[i] <= 0xDFFF && (i == 0 || !(0xD800 <= s[i - 1] <= 0xDBFF)))
  }

  /** Exactly control characters, quotes, backslashes and unpaired surrogates are escaped; everything else
      stands for itself, and those with a short escape have it. */
  lemma EscapedExactly(s: JsString, i: nat)
    requires i < |s|
    ensures var e := Escaped(s[i], Lone(s, i));
      && (e == [s[i]] <==> s[i] >= 32 && s[i] != '"' as int && s[i] != '\\' as int && !Unpaired(s, i))
      && (e != [s[i]] ==> |e| >= 2 && e[0] == '\\' as int)
      && (|e| == 2 <==> s[i] in {8, 9, 10, 12, 13, 34, 92})
      && (|e| > 2 ==> |e| == 6 && e[1] == 'u' as int && forall k :: 2 <= k < 6 ==>
            '0' as int <= e[k] <= '9' as int || 'a' as int <= e[k] <= 'f' as int)
  {}
}
