/** Operation ids as HafAH sends them: numeric text or a safe integer.
    (packages/indexer/src/scanner/hive-client.ts) */
module HiveOperationIds {
  import opened Digits

  datatype OpId = Text(digits: string) | Number(n: int)
  {
    /** What the reader of a response has checked. */
    ghost predicate Valid() { Text? ==> digits != "" && AllDigits(digits) }
  }

  /** `String(n)` of a non-negative integer. */
  function Decimal(n: nat): (s: string)
    ensures s != "" && AllDigits(s)
  {
    if n < 10 then [DigitChar(n)] else Decimal(n / 10) + [DigitChar(n % 10)]
  }

  /** `replace(/^0+(?=\d)/, "")`: leading zeros go as long as a digit follows. */
  function StripZeros(s: string): string {
    if |s| > 1 && s[0] == '0' then StripZeros(s[1..]) else s
  }

  function OperationIdKey(id: OpId): string {
    match id
    case Text(s) => StripZeros(s)
    case Number(n) => if n < 0 then "-" + Decimal(-n) else StripZeros(Decimal(n))
  }

  ghost function Value(id: OpId): int
    requires id.Valid()
  {
    match id case Text(s) => NumberOf(s) case Number(n) => n
  }

  lemma {:induction false} LeadingZero(s: string)
    requires AllDigits(s) && s != "" && s[0] == '0'
    ensures NumberOf(s) == NumberOf(s[1..])
  {
    if |s| > 1 {
      LeadingZero(s[..|s| - 1]);
      assert s[1..][..|s[1..]| - 1] == s[..|s| - 1][1..];
    }
  }

  lemma {:induction false} Stripped(s: string)
    requires AllDigits(s) && s != ""
    ensures var t := StripZeros(s);
      t != "" && AllDigits(t) && NumberOf(t) == NumberOf(s) && (t[0] == '0' ==> |t| == 1)
  {
    if |s| > 1 && s[0] == '0' {
      LeadingZero(s);
      Stripped(s[1..]);
    }
  }

  lemma {:induction false} DecimalValue(n: nat)
    ensures NumberOf(Decimal(n)) == n && (n > 0 ==> Decimal(n)[0] != '0')
  {
    var s := Decimal(n);
    if n < 10 {
      assert s[..|s| - 1] == "";
    } else {
      DecimalValue(n / 10);
      assert s[..|s| - 1] == Decimal(n / 10);
    }
  }

  /** Digits without superfluous zeros are the decimal text of their value. */
  lemma {:induction false} CanonicalDigits(s: string)
    requires AllDigits(s) && s != "" && (s[0] == '0' ==> |s| == 1)
    ensures s == Decimal(NumberOf(s))
    ensures |s| > 1 ==> NumberOf(s) >= 10
  {
    var front := s[..|s| - 1];
    var d := DigitOf(s[|s| - 1]);
    assert DigitChar(d) == s[|s| - 1];
    if front == "" {
      assert NumberOf(front) == 0;
    } else {
      CanonicalDigits(front);
      assert front != "0";
      if |front| == 1 { assert front[..0] == "" && NumberOf(front) == DigitOf(front[0]); }
      var v := NumberOf(front);
      assert (10 * v + d) / 10 == v && (10 * v + d) % 10 == d;
      assert s == front + [s[|s| - 1]];
    }
  }

  ghost function KeyOfValue(v: int): string {
    if v < 0 then "-" + Decimal(-v) else Decimal(v)
  }

  lemma KeyIsCanonical(id: OpId)
    requires id.Valid()
    ensures OperationIdKey(id) == KeyOfValue(Value(id))
  {
    match id {
      case Text(s) =>
        Stripped(s);
        CanonicalDigits(StripZeros(s));
      case Number(n) =>
        if n >= 0 {
          Stripped(Decimal(n));
          CanonicalDigits(StripZeros(Decimal(n)));
          DecimalValue(n);
        }
    }
  }

  /** Two ids, however written, have the same key exactly when they are the same number. */
  lemma SameKeyIffSameNumber(a: OpId, b: OpId)
    requires a.Valid() && b.Valid()
    ensures OperationIdKey(a) == OperationIdKey(b) <==> Value(a) == Value(b)
  {
    KeyIsCanonical(a);
    KeyIsCanonical(b);
    KeyDeterminesValue(Value(a), Value(b));
  }

  lemma KeyDeterminesValue(v: int, w: int)
    ensures KeyOfValue(v) == KeyOfValue(w) ==> v == w
  {
    hide Decimal, NumberOf;
    if v < 0 && w < 0 {
      assert KeyOfValue(v)[1..] == Decimal(-v) && KeyOfValue(w)[1..] == Decimal(-w);
      DecimalValue(-v);
      DecimalValue(-w);
    } else if v >= 0 && w >= 0 {
      DecimalValue(v);
      DecimalValue(w);
    } else {
      assert KeyOfValue(v)[0] != KeyOfValue(w)[0];
    }
  }
}
