/** The printed form of a state root: a fixed prefix and two lower-case hex digits per byte.
    (packages/indexer/src/utils/state-root-hash.ts) */
module StateRootText {
  import opened Prelude
  import opened StateRootHash

  const HASH_FORMAT_PREFIX := "sha256:"
  predicate IsHex(c: char) { '0' <= c <= '9' || 'a' <= c <= 'f' }

  function HexDigit(n: bv8): char {
    if n == 0 then '0'
    else if n == 1 then '1'
    else if n == 2 then '2'
    else if n == 3 then '3'
    else if n == 4 then '4'
    else if n == 5 then '5'
    else if n == 6 then '6'
    else if n == 7 then '7'
    else if n == 8 then '8'
    else if n == 9 then '9'
    else if n == 10 then 'a'
    else if n == 11 then 'b'
    else if n == 12 then 'c'
    else if n == 13 then 'd'
    else if n == 14 then 'e'
    else 'f'
  }

  function HexValue(c: char): bv8 {
    if c == '0' then 0
    else if c == '1' then 1
    else if c == '2' then 2
    else if c == '3' then 3
    else if c == '4' then 4
    else if c == '5' then 5
    else if c == '6' then 6
    else if c == '7' then 7
    else if c == '8' then 8
    else if c == '9' then 9
    else if c == 'a' then 10
    else if c == 'b' then 11
    else if c == 'c' then 12
    else if c == 'd' then 13
    else if c == 'e' then 14
    else 15
  }

  lemma HexValueOf(c: char)
    requires IsHex(c)
    ensures HexValue(c) < 16 && HexDigit(HexValue(c)) == c
  {}

  lemma HexDigitOf(n: bv8)
    requires n < 16
    ensures IsHex(HexDigit(n)) && HexValue(HexDigit(n)) == n
  {}

  /** toString(16) padded to two digits. */
  function ByteText(b: bv8): string { [HexDigit(b >> 4), HexDigit(b & 15)] }

  function ByteOf(hi: char, lo: char): bv8 { (HexValue(hi) << 4) | HexValue(lo) }

  lemma Nibbles(b: bv8, h: bv8, l: bv8)
    ensures b >> 4 < 16 && b & 15 < 16 && ((b >> 4) << 4) | (b & 15) == b
    ensures h < 16 && l < 16 ==> ((h << 4) | l) >> 4 == h && ((h << 4) | l) & 15 == l
  {}

  lemma ByteRoundTrip(b: bv8)
    ensures var t := ByteText(b); IsHex(t[0]) && IsHex(t[1]) && ByteOf(t[0], t[1]) == b
  {
    Nibbles(b, 0, 0);
    HexDigitOf(b >> 4);
    HexDigitOf(b & 15);
  }

  lemma TextRoundTrip(hi: char, lo: char)
    requires IsHex(hi) && IsHex(lo)
    ensures ByteText(ByteOf(hi, lo)) == [hi, lo]
  {
    HexValueOf(hi);
    HexValueOf(lo);
    Nibbles(0, HexValue(hi), HexValue(lo));
  }

  /** `text` is the printed form of `root`. */
  ghost predicate Prints(root: Bytes, text: string) {
    && |root| == STATE_ROOT_BYTES
    && |text| == |HASH_FORMAT_PREFIX| + 2 * STATE_ROOT_BYTES
    && text[..|HASH_FORMAT_PREFIX|] == HASH_FORMAT_PREFIX
    && forall i :: 0 <= i < STATE_ROOT_BYTES ==>
         var hex := text[|HASH_FORMAT_PREFIX|..];
         hex[2 * i] == ByteText(root[i])[0] && hex[2 * i + 1] == ByteText(root[i])[1]
  }

  method FormatStateRoot(root: Bytes) returns (r: Result<string>)
    ensures r.Done? <==> |root| == STATE_ROOT_BYTES
    ensures r.Done? ==> Prints(root, r.value)
  {
    if |root| != STATE_ROOT_BYTES { return Error("formatStateRoot: wrong length"); }
    var hex := "";
    for i := 0 to |root|
      invariant |hex| == 2 * i
      invariant forall k :: 0 <= k < i ==>
        hex[2 * k] == ByteText(root[k])[0] && hex[2 * k + 1] == ByteText(root[k])[1]
    {
      hex := hex + ByteText(root[i]);
    }
    var text := HASH_FORMAT_PREFIX + hex;
    assert text[|HASH_FORMAT_PREFIX|..] == hex;
    return Done(text);
  }

  /** Accepts exactly the texts that print some root, and returns that root. */
  method ParseStateRoot(value: string) returns (r: Result<Bytes>)
    ensures r.Done? ==> Prints(r.value, value)
    ensures r.Error? ==> forall root: Bytes :: !Prints(root, value)
  {
    if |value| < |HASH_FORMAT_PREFIX| || value[..|HASH_FORMAT_PREFIX|] != HASH_FORMAT_PREFIX {
      return Error("parseStateRoot: prefix");
    }
    var hex := value[|HASH_FORMAT_PREFIX|..];
    if |hex| != STATE_ROOT_BYTES * 2 {
      return Error("parseStateRoot: invalid hex payload");
    }
    if k :| 0 <= k < |hex| && !IsHex(hex[k]) {
      forall root: Bytes ensures !Prints(root, value) {
        if Prints(root, value) { ByteRoundTrip(root[k / 2]); }
      }
      return Error("parseStateRoot: invalid hex payload");
    }
    var buffer := new bv8[STATE_ROOT_BYTES];
    for i := 0 to STATE_ROOT_BYTES
      invariant forall k :: 0 <= k < i ==> ByteText(buffer[k]) == [hex[2 * k], hex[2 * k + 1]]
    {
      TextRoundTrip(hex[2 * i], hex[2 * i + 1]);
      buffer[i] := ByteOf(hex[2 * i], hex[2 * i + 1]);
    }
    return Done(buffer[..]);
  }

  /** Printing is one-to-one: two indexers publish the same text exactly when their roots agree. */
  lemma PrintedTextIdentifiesRoot(a: Bytes, b: Bytes, ta: string, tb: string)
    requires Prints(a, ta) && Prints(b, tb)
    ensures a == b <==> ta == tb
  {
    var ha, hb := ta[|HASH_FORMAT_PREFIX|..], tb[|HASH_FORMAT_PREFIX|..];
    if ta == tb {
      forall i | 0 <= i < STATE_ROOT_BYTES ensures a[i] == b[i] {
        ByteRoundTrip(a[i]);
        ByteRoundTrip(b[i]);
      }
    }
    if a == b {
      forall j | 0 <= j < 2 * STATE_ROOT_BYTES ensures ha[j] == hb[j] {
        var i := j / 2;
        assert 0 <= i < STATE_ROOT_BYTES;
        assert ha[2 * i] == hb[2 * i] && ha[2 * i + 1] == hb[2 * i + 1];
      }
      assert ta == HASH_FORMAT_PREFIX + ha && tb == HASH_FORMAT_PREFIX + hb;
    }
  }

  /** What a hexadecimal digit is worth, by its character code. */
  function Worth(c: char): int {
    if '0' <= c <= '9' then c as int - '0' as int
    else if 'a' <= c <= 'f' then c as int - 'a' as int + 10
    else -1
  }

  lemma DigitIsWorth(n: bv8)
    requires n < 16
    ensures Worth(HexDigit(n)) == n as int
  {}

  lemma ByteIsTwoDigits(b: bv8)
    ensures b >> 4 < 16 && b & 15 < 16 && b as int == 16 * ((b >> 4) as int) + (b & 15) as int
  {}

  /** After the prefix the text is the root in base 16: the first of two digits counts sixteen times. */
  lemma PrintedInBase16(root: Bytes, text: string)
    requires Prints(root, text)
    ensures |text| == 71 && text[..7] == "sha256:"
    ensures forall i :: 0 <= i < 32 ==>
      && 0 <= Worth(text[7 + 2 * i]) && 0 <= Worth(text[8 + 2 * i])
      && root[i] as int == 16 * Worth(text[7 + 2 * i]) + Worth(text[8 + 2 * i])
  {
    hide HexDigit, Worth;
    var hex := text[7..];
    forall i | 0 <= i < 32
      ensures 0 <= Worth(text[7 + 2 * i]) && 0 <= Worth(text[8 + 2 * i])
        && root[i] as int == 16 * Worth(text[7 + 2 * i]) + Worth(text[8 + 2 * i])
    {
      assert text[7 + 2 * i] == hex[2 * i] && text[8 + 2 * i] == hex[2 * i + 1];
      ByteIsTwoDigits(root[i]);
      DigitIsWorth(root[i] >> 4);
      DigitIsWorth(root[i] & 15);
    }
  }
}
