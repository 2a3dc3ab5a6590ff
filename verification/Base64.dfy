/** The base 64 encoding of section 4 of RFC 4648, with padding. */
module Base64 {
  import opened Results

  type Byte = n: int | 0 <= n < 256

  /** The character for a value of six bits. */
  function Sextet(n: nat): char
    requires n < 64
  {
    if n < 26 then ('A' as int + n) as char
    else if n < 52 then ('a' as int + n - 26) as char
    else if n < 62 then ('0' as int + n - 52) as char
    else if n == 62 then '+' else '/'
  }

  /** The value of a character of the alphabet; 64 for any other. */
  function Value(c: char): (n: nat)
    ensures n <= 64
  {
    if 'A' <= c <= 'Z' then c as int - 'A' as int
    else if 'a' <= c <= 'z' then c as int - 'a' as int + 26
    else if '0' <= c <= '9' then c as int - '0' as int + 52
    else if c == '+' then 62 else if c == '/' then 63 else 64
  }

  const PAD := '='

  lemma ValueOfSextet(n: nat)
    requires n < 64
    ensures Value(Sextet(n)) == n && Sextet(n) != PAD
  {
  }

  function Encode(bs: seq<Byte>): string {
    if bs == [] then ""
    else if |bs| == 1 then [Sextet(bs[0] / 4), Sextet(bs[0] % 4 * 16), PAD, PAD]
    else if |bs| == 2 then
      [Sextet(bs[0] / 4), Sextet(bs[0] % 4 * 16 + bs[1] / 16), Sextet(bs[1] % 16 * 4), PAD]
    else Group(bs[0], bs[1], bs[2]) + Encode(bs[3..])
  }

  function Group(a: Byte, b: Byte, c: Byte): string {
    [Sextet(a / 4), Sextet(a % 4 * 16 + b / 16), Sextet(b % 16 * 4 + c / 64), Sextet(c % 64)]
  }

  /** Padding only in the last group of four, and nothing outside the alphabet. */
  function Decode(s: string): Option<seq<Byte>> {
    if s == "" then Some([])
    else if |s| < 4 || Value(s[0]) == 64 || Value(s[1]) == 64 then None
    else
      var first := Value(s[0]) * 4 + Value(s[1]) / 16;
      if |s| == 4 && s[2] == PAD && s[3] == PAD then Some([first])
      else if Value(s[2]) == 64 then None
      else
        var second := Value(s[1]) % 16 * 16 + Value(s[2]) / 4;
        if |s| == 4 && s[3] == PAD then Some([first, second])
        else if Value(s[3]) == 64 then None
        else
          var rest := Decode(s[4..]);
          if rest.None? then None
          else Some([first, second, Value(s[2]) % 4 * 64 + Value(s[3])] + rest.value)
  }

  /** Decoding undoes encoding, for every byte string. */
  lemma {:induction false} DecodeEncode(bs: seq<Byte>)
    ensures Decode(Encode(bs)) == Some(bs)
    decreases |bs|
  {
    if bs == [] {
    } else if |bs| == 1 {
      OneByte(bs);
    } else if |bs| == 2 {
      TwoBytes(bs);
    } else {
      DecodeEncode(bs[3..]);
      ThreeBytes(bs);
    }
  }

  // The four sextets of a group, and the bytes they give back.

  lemma FirstByte(b: Byte, low: nat)
    requires low < 16
    ensures b / 4 < 64 && b % 4 * 16 + low < 64
    ensures b / 4 * 4 + (b % 4 * 16 + low) / 16 == b && (b % 4 * 16 + low) % 16 == low
  {
  }

  lemma SecondByte(b: Byte, low: nat)
    requires low < 4
    ensures b / 16 < 16 && b % 16 * 4 + low < 64
    ensures b / 16 * 16 + (b % 16 * 4 + low) / 4 == b && (b % 16 * 4 + low) % 4 == low
  {
  }

  lemma OneByte(bs: seq<Byte>)
    requires |bs| == 1
    ensures Decode(Encode(bs)) == Some(bs)
  {
    hide Sextet, Value;
    FirstByte(bs[0], 0);
    ValueOfSextet(bs[0] / 4);
    ValueOfSextet(bs[0] % 4 * 16);
    assert bs == [bs[0]];
  }

  lemma TwoBytes(bs: seq<Byte>)
    requires |bs| == 2
    ensures Decode(Encode(bs)) == Some(bs)
  {
    hide Sextet, Value;
    SecondByte(bs[1], 0);
    FirstByte(bs[0], bs[1] / 16);
    ValueOfSextet(bs[0] / 4);
    ValueOfSextet(bs[0] % 4 * 16 + bs[1] / 16);
    ValueOfSextet(bs[1] % 16 * 4);
    assert bs == [bs[0], bs[1]];
  }

  /** A group of four characters before others. */
  lemma DecodeGroup(w: nat, x: nat, y: nat, z: nat, rest: string)
    requires w < 64 && x < 64 && y < 64 && z < 64
    ensures var s := [Sextet(w), Sextet(x), Sextet(y), Sextet(z)] + rest;
      Decode(s) == if Decode(rest).None? then None
                   else Some([w * 4 + x / 16, x % 16 * 16 + y / 4, y % 4 * 64 + z] + Decode(rest).value)
  {
    hide Sextet, Value;
    ValueOfSextet(w);
    ValueOfSextet(x);
    ValueOfSextet(y);
    ValueOfSextet(z);
    var s := [Sextet(w), Sextet(x), Sextet(y), Sextet(z)] + rest;
    assert s[4..] == rest;
  }

  lemma GroupBytes(a: Byte, b: Byte, c: Byte)
    ensures var w, x, y, z := a / 4, a % 4 * 16 + b / 16, b % 16 * 4 + c / 64, c % 64;
      && w < 64 && x < 64 && y < 64 && z < 64
      && w * 4 + x / 16 == a && x % 16 * 16 + y / 4 == b && y % 4 * 64 + z == c
  {
    FirstByte(a, b / 16);
    SecondByte(b, c / 64);
  }

  lemma DecodeBytes(a: Byte, b: Byte, c: Byte, rest: string)
    ensures Decode(Group(a, b, c) + rest) == if Decode(rest).None? then None else Some([a, b, c] + Decode(rest).value)
  {
    hide Sextet, Value, Decode;
    GroupBytes(a, b, c);
    DecodeGroup(a / 4, a % 4 * 16 + b / 16, b % 16 * 4 + c / 64, c % 64, rest);
  }

  lemma ThreeBytes(bs: seq<Byte>)
    requires |bs| > 2 && Decode(Encode(bs[3..])) == Some(bs[3..])
    ensures Decode(Encode(bs)) == Some(bs)
  {
    hide Sextet, Value, Decode, Group;
    DecodeBytes(bs[0], bs[1], bs[2], Encode(bs[3..]));
    assert bs == [bs[0], bs[1], bs[2]] + bs[3..];
  }
}
