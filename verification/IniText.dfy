/** apps/launcher/config.cpp: the text primitives of launcher.ini. A text stands for a string of
    bytes: its characters are below 256 wherever that matters. */
module IniText {
  import opened Characters
  import opened Options
  import opened Sequences

  predicate IsBytes(s: Text) { forall i :: 0 <= i < |s| ==> s[i] as int < 256 }

  predicate IsAlnum(c: char) { IsDigit(c) || 'a' <= c <= 'z' || 'A' <= c <= 'Z' }

  // ----- escapes ----------------------------------------------------------------------------

  predicate SafeByte(c: char) {
    IsAlnum(c) || c == '-' || c == '_' || c == '.' || c == ' ' || c == ':' || c == '\\' || c == '/'
  }

  function Hex(n: nat): char
    requires n < 16
  {
    HexDigit(n, 'A')
  }

  function Nibble(c: char): (n: int)
    ensures -1 <= n < 16
  {
    if '0' <= c <= '9' then c as int - '0' as int
    else if 'a' <= c <= 'f' then c as int - 'a' as int + 10
    else if 'A' <= c <= 'F' then c as int - 'A' as int + 10
    else -1
  }

  function EncodeByte(c: char): Text {
    if SafeByte(c) then [c] else ['%', Hex(c as int / 16 % 16), Hex(c as int % 16)]
  }

  function Encode(s: Text): Text {
    if s == [] then [] else EncodeByte(s[0]) + Encode(s[1..])
  }

  function Prepend(c: char, rest: Option<Text>): Option<Text> {
    if rest.None? then None else Some([c] + rest.value)
  }

  function Decode(s: Text): Option<Text> {
    if s == [] then Some([])
    else if s[0] != '%' then Prepend(s[0], Decode(s[1..]))
    else if |s| < 3 || Nibble(s[1]) < 0 || Nibble(s[2]) < 0 then None
    else Prepend((Nibble(s[1]) * 16 + Nibble(s[2])) as char, Decode(s[3..]))
  }

  lemma NibbleOfHex(n: nat)
    requires n < 16
    ensures Nibble(Hex(n)) == n
  {
  }

  lemma DecodeSafe(c: char, rest: Text)
    requires c != '%'
    ensures Decode([c] + rest) == Prepend(c, Decode(rest))
  {
    assert ([c] + rest)[1..] == rest;
  }

  lemma DecodeEscape(high: nat, low: nat, rest: Text)
    requires high < 16 && low < 16
    ensures Decode(['%', Hex(high), Hex(low)] + rest) == Prepend((high * 16 + low) as char, Decode(rest))
  {
    NibbleOfHex(high);
    NibbleOfHex(low);
    assert (['%', Hex(high), Hex(low)] + rest)[3..] == rest;
  }

  lemma DecodeByte(c: char, rest: Text)
    requires c as int < 256
    ensures Decode(EncodeByte(c) + rest) == Prepend(c, Decode(rest))
  {
    if SafeByte(c) {
      DecodeSafe(c, rest);
    } else {
      DecodeEscape(c as int / 16 % 16, c as int % 16, rest);
    }
  }

  /** Every byte string survives, whatever its bytes. */
  lemma {:induction false} DecodeEncode(s: Text)
    requires IsBytes(s)
    ensures Decode(Encode(s)) == Some(s)
  {
    if s != [] {
      DecodeEncode(s[1..]);
      DecodeByte(s[0], Encode(s[1..]));
      assert [s[0]] + s[1..] == s;
    }
  }

  lemma EncodeAppend(a: Text, b: Text)
    ensures Encode(a + b) == Encode(a) + Encode(b)
  {
    if a == [] {
      assert a + b == b;
    } else {
      assert (a + b)[1..] == a[1..] + b;
      EncodeAppend(a[1..], b);
    }
  }

  method EncodeText(value: Text) returns (result: Text)
    ensures result == Encode(value)
  {
    result := [];
    for i := 0 to |value|
      invariant result == Encode(value[..i])
    {
      assert value[..i + 1] == value[..i] + [value[i]];
      EncodeAppend(value[..i], [value[i]]);
      assert Encode([value[i]]) == EncodeByte(value[i]) + [];
      if SafeByte(value[i]) && value[i] != '%' {
        result := result + [value[i]];
      } else {
        result := result + ['%'] + [Hex(value[i] as int / 16 % 16)] + [Hex(value[i] as int % 16)];
      }
    }
    assert value[..|value|] == value;
  }

  function Appended(done: Text, rest: Option<Text>): Option<Text> {
    if rest.None? then None else Some(done + rest.value)
  }

  lemma AppendedNothing(rest: Option<Text>)
    ensures Appended([], rest) == rest
  {
    if rest.Some? {
      assert [] + rest.value == rest.value;
    }
  }

  lemma AppendedStep(done: Text, c: char, rest: Option<Text>)
    ensures Appended(done + [c], rest) == Appended(done, Prepend(c, rest))
  {
    if rest.Some? {
      assert done + [c] + rest.value == done + ([c] + rest.value);
    }
  }

  method DecodeText(value: Text) returns (ok: bool, result: Text)
    ensures Decode(value) == if ok then Some(result) else None
  {
    result := [];
    var index := 0;
    AppendedNothing(Decode(value));
    assert value[0..] == value;
    while index < |value|
      invariant index <= |value| && Decode(value) == Appended(result, Decode(value[index..]))
    {
      ghost var rest := value[index..];
      if value[index] != '%' {
        assert rest[1..] == value[index + 1..];
        AppendedStep(result, value[index], Decode(value[index + 1..]));
        result := result + [value[index]];
        index := index + 1;
      } else {
        if index + 2 >= |value| {
          return false, result;
        }
        var high, low := Nibble(value[index + 1]), Nibble(value[index + 2]);
        if high < 0 || low < 0 {
          return false, result;
        }
        assert rest[3..] == value[index + 3..];
        AppendedStep(result, (high * 16 + low) as char, Decode(value[index + 3..]));
        result := result + [(high * 16 + low) as char];
        index := index + 3;
      }
    }
    assert value[index..] == [] && result + [] == result;
    ok := true;
  }

  // ----- trimming ---------------------------------------------------------------------------

  function TrimStart(s: Text): (r: Text)
    ensures |r| <= |s| && r == s[|s| - |r|..] && (r != [] ==> !IsSpace(r[0]))
  {
    if s != [] && IsSpace(s[0]) then TrimStart(s[1..]) else s
  }

  function TrimEnd(s: Text): (r: Text)
    ensures |r| <= |s| && r == s[..|r|] && (r != [] ==> !IsSpace(r[|r| - 1]))
  {
    if s != [] && IsSpace(s[|s| - 1]) then TrimEnd(s[..|s| - 1]) else s
  }

  function Trim(s: Text): Text { TrimEnd(TrimStart(s)) }

  lemma TrimTrimmed(s: Text)
    requires s != [] && !IsSpace(s[0]) && !IsSpace(s[|s| - 1])
    ensures Trim(s) == s
  {
  }

  // ----- numbers ----------------------------------------------------------------------------

  predicate AllDigits(s: Text) { forall c :: c in s ==> IsDigit(c) }

  function DigitsValue(s: Text): (n: nat)
  {
    if s == [] then 0 else DigitsValue(s[..|s| - 1]) * 10 + DigitValue(s[|s| - 1])
  }

  function DigitValue(c: char): nat { if IsDigit(c) then c as int - '0' as int else 0 }

  function Decimal(n: nat): (s: Text)
    ensures s != [] && AllDigits(s)
  {
    if n < 10 then [Hex(n)] else Decimal(n / 10) + [Hex(n % 10)]
  }

  lemma {:induction false} DecimalValue(n: nat)
    ensures DigitsValue(Decimal(n)) == n
  {
    if n < 10 {
      assert Decimal(n)[..0] == [];
    } else {
      DecimalValue(n / 10);
      assert Decimal(n)[..|Decimal(n)| - 1] == Decimal(n / 10);
    }
  }

  /** std::from_chars into a 32-bit unsigned, required to consume everything. */
  function ParseUnsigned(s: Text): Option<nat> {
    if s == [] || !AllDigits(s) || DigitsValue(s) >= 0x1_0000_0000 then None else Some(DigitsValue(s))
  }

  lemma ParseDecimal(n: nat)
    requires n < 0x1_0000_0000
    ensures ParseUnsigned(Decimal(n)) == Some(n)
  {
    DecimalValue(n);
  }

  // ----- escapes inside trimmed lines -------------------------------------------------------

  /** The value that survives trimming a line it ends: without its trailing spaces. */
  function Unspaced(v: Text): (r: Text)
    ensures |r| <= |v| && r == v[..|r|]
  {
    if v != [] && v[|v| - 1] == ' ' then Unspaced(v[..|v| - 1]) else v
  }

  lemma UnspacedSame(v: Text)
    ensures Unspaced(v) == v <==> v == [] || v[|v| - 1] != ' '
  {
  }

  predicate Printable(s: Text) { forall i :: 0 <= i < |s| ==> s[i] != '\n' && s[i] != '\r' && s[i] != '\t' }

  lemma HexPrintable(n: nat)
    requires n < 16
    ensures !IsSpace(Hex(n))
  {
  }

  lemma {:induction false} EncodePrintable(v: Text)
    ensures Printable(Encode(v))
  {
    if v != [] {
      HexPrintable(v[0] as int / 16 % 16);
      HexPrintable(v[0] as int % 16);
      EncodePrintable(v[1..]);
    }
  }

  lemma EncodeOne(c: char)
    ensures Encode([c]) == EncodeByte(c)
  {
    assert Encode([c][1..]) == [];
  }

  lemma EncodeLast(a: Text, c: char)
    ensures Encode(a + [c]) == Encode(a) + EncodeByte(c)
  {
    EncodeOne(c);
    EncodeAppend(a, [c]);
  }

  lemma EncodeByteEnd(c: char)
    ensures EncodeByte(c) != [] && (c == ' ' ==> EncodeByte(c) == [' '])
    ensures c != ' ' ==> !IsSpace(EncodeByte(c)[|EncodeByte(c)| - 1])
  {
    HexPrintable(c as int % 16);
  }

  lemma TrimEndSpace(a: Text)
    ensures TrimEnd(a + [' ']) == TrimEnd(a)
  {
    assert (a + [' '])[..|a|] == a;
  }

  lemma TrimEndOther(a: Text, b: Text)
    requires b != [] && !IsSpace(b[|b| - 1])
    ensures TrimEnd(a + b) == a + b
  {
  }

  lemma UnspacedSpace(a: Text)
    ensures Unspaced(a + [' ']) == Unspaced(a)
  {
    assert (a + [' '])[..|a|] == a;
  }

  /** Trimming the end of a line that ends in an encoded value trims the value's spaces. */
  lemma {:induction false} TrimEncoded(prefix: Text, v: Text)
    requires prefix != [] && !IsSpace(prefix[|prefix| - 1])
    ensures TrimEnd(prefix + Encode(v)) == prefix + Encode(Unspaced(v))
    decreases |v|
  {
    if v == [] {
      assert prefix + Encode(v) == prefix;
    } else {
      var a, c := v[..|v| - 1], v[|v| - 1];
      assert v == a + [c];
      EncodeLast(a, c);
      EncodeByteEnd(c);
      Regrouped(prefix, Encode(a), EncodeByte(c));
      if c == ' ' {
        TrimEncoded(prefix, a);
        TrimEndSpace(prefix + Encode(a));
        UnspacedSpace(a);
      } else {
        TrimEndOther(prefix + Encode(a), EncodeByte(c));
        UnspacedSame(v);
      }
    }
  }

  lemma {:induction false} EncodeSafe(s: Text)
    requires forall i :: 0 <= i < |s| ==> SafeByte(s[i])
    ensures Encode(s) == s
  {
    if s != [] {
      EncodeSafe(s[1..]);
      assert [s[0]] + s[1..] == s;
    }
  }
}
