/**
 Unpadded base64url (section 5 of RFC 4648), as used for ConfigMap data keys.  Go strings are
 byte sequences, so a key is a sequence of bytes here.
 */
module Base64Url {
  import opened Wrappers

  type byte = b: int | 0 <= b < 256

  type sextet = v: int | 0 <= v < 64

  function Letter(v: sextet): char {
    if v < 26 then 'A' + v as char
    else if v < 52 then 'a' + (v - 26) as char
    else if v < 62 then '0' + (v - 52) as char
    else if v == 62 then '-'
    else '_'
  }

  function Value(c: char): Option<sextet> {
    if 'A' <= c <= 'Z' then Some(c as int - 'A' as int)
    else if 'a' <= c <= 'z' then Some(c as int - 'a' as int + 26)
    else if '0' <= c <= '9' then Some(c as int - '0' as int + 52)
    else if c == '-' then Some(62)
    else if c == '_' then Some(63)
    else None
  }

  function Group(x: byte, y: byte, z: byte): string {
    [Letter(x / 4), Letter(x % 4 * 16 + y / 16), Letter(y % 16 * 4 + z / 64), Letter(z % 64)]
  }

  /** Three bytes make four letters; one or two left over make two or three. */
  function Encode(s: seq<byte>): string {
    if s == [] then []
    else if |s| == 1 then
      [Letter(s[0] / 4), Letter(s[0] % 4 * 16)]
    else if |s| == 2 then
      [Letter(s[0] / 4), Letter(s[0] % 4 * 16 + s[1] / 16), Letter(s[1] % 16 * 4)]
    else
      Group(s[0], s[1], s[2]) + Encode(s[3..])
  }

  function Decode(t: string): Option<seq<byte>> {
    if t == [] then Some([])
    else if |t| == 1 then None
    else
      match (Value(t[0]), Value(t[1]))
      case (Some(a), Some(b)) =>
        if |t| == 2 then
          if b % 16 == 0 then Some([a * 4 + b / 16]) else None
        else
          (match Value(t[2])
           case None => None
           case Some(c) =>
             if |t| == 3 then
               if c % 4 == 0 then Some([a * 4 + b / 16, b % 16 * 16 + c / 4]) else None
             else
               match (Value(t[3]), Decode(t[4..]))
               case (Some(d), Some(rest)) => Some([a * 4 + b / 16, b % 16 * 16 + c / 4, c % 4 * 64 + d] + rest)
               case _ => None)
      case _ => None
  }

  lemma LetterValue(v: sextet)
    ensures Value(Letter(v)) == Some(v)
  {
  }

  /** Regrouping eight-bit values as six-bit values loses nothing. */
  lemma Regroup(x: byte, y: byte, z: byte)
    ensures var b := x % 4 * 16 + y / 16;
            var c := y % 16 * 4 + z / 64;
            && 0 <= b < 64 && 0 <= c < 64
            && x / 4 * 4 + b / 16 == x && b % 16 * 16 + c / 4 == y && c % 4 * 64 + z % 64 == z
  {
  }

  lemma DecodeGroup(x: byte, y: byte, z: byte, t: string, rest: seq<byte>)
    requires Decode(t) == Some(rest)
    ensures Decode(Group(x, y, z) + t) == Some([x, y, z] + rest)
  {
    var u := Group(x, y, z) + t;
    assert u[4..] == t;
    LetterValue(x / 4);
    LetterValue(x % 4 * 16 + y / 16);
    LetterValue(y % 16 * 4 + z / 64);
    LetterValue(z % 64);
    Regroup(x, y, z);
  }

  lemma DecodeOne(x: byte)
    ensures Decode(Encode([x])) == Some([x])
  {
    Regroup(x, 0, 0);
    LetterValue(x / 4);
    LetterValue(x % 4 * 16);
  }

  lemma DecodeTwo(x: byte, y: byte)
    ensures Decode(Encode([x, y])) == Some([x, y])
  {
    Regroup(x, y, 0);
    LetterValue(x / 4);
    LetterValue(x % 4 * 16 + y / 16);
    LetterValue(y % 16 * 4);
  }

  lemma {:induction false} DecodeEncode(s: seq<byte>)
    ensures Decode(Encode(s)) == Some(s)
  {
    if s == [] {
    } else if |s| == 1 {
      DecodeOne(s[0]);
      assert [s[0]] == s;
    } else if |s| == 2 {
      DecodeTwo(s[0], s[1]);
      assert [s[0], s[1]] == s;
    } else {
      DecodeEncode(s[3..]);
      DecodeGroup(s[0], s[1], s[2], Encode(s[3..]), s[3..]);
      assert [s[0], s[1], s[2]] + s[3..] == s;
    }
  }

  /** Four letters read as a number to the base 64 are three bytes read as one to the base 256. */
  lemma GroupIsNumber(x: byte, y: byte, z: byte)
    ensures var g := Group(x, y, z);
            var a, b, c, d := Value(g[0]), Value(g[1]), Value(g[2]), Value(g[3]);
            && a.Some? && b.Some? && c.Some? && d.Some?
            && ((a.value * 64 + b.value) * 64 + c.value) * 64 + d.value == (x * 256 + y) * 256 + z
  {
    LetterValue(x / 4);
    LetterValue(x % 4 * 16 + y / 16);
    LetterValue(y % 16 * 4 + z / 64);
    LetterValue(z % 64);
    Regroup(x, y, z);
  }

  lemma EncodeGroup(s: seq<byte>)
    requires |s| >= 3
    ensures Encode(s) == Group(s[0], s[1], s[2]) + Encode(s[3..])
  {
  }

  /** What is left over is encoded as if padded with zeros, without the letters that are all padding. */
  lemma EncodeRest(x: byte, y: byte)
    ensures Encode([x]) == Group(x, 0, 0)[..2] && Encode([x, y]) == Group(x, y, 0)[..3]
  {
  }

  lemma FooBarGroups()
    ensures Group(0x66, 0x6f, 0x6f) == "Zm9v" && Group(0x62, 0x61, 0x72) == "YmFy"
  {
  }

  /** Test vectors: "foobar" from section 10 of RFC 4648, and two letters only the URL-safe alphabet has. */
  lemma Vectors()
    ensures Encode([0x66, 0x6f, 0x6f, 0x62, 0x61, 0x72]) == "Zm9vYmFy"
    ensures Encode([0xfb, 0xff]) == "-_8"
  {
    FooBar("Zm9v", "YmFy");
  }

  lemma FooBar(first: string, second: string)
    requires first == "Zm9v" && second == "YmFy"
    ensures Encode([0x66, 0x6f, 0x6f, 0x62, 0x61, 0x72]) == first + second
  {
    var s: seq<byte> := [0x66, 0x6f, 0x6f, 0x62, 0x61, 0x72];
    FooBarGroups();
    EncodeGroup(s);
    EncodeGroup(s[3..]);
    assert s[3..][3..] == [];
  }

  /** configMapDataKey. */
  function DataKey(key: seq<byte>): string {
    "state_" + Encode(key)
  }

  /** Characters Kubernetes accepts in a ConfigMap data key. */
  predicate DataKeyChar(c: char) {
    'A' <= c <= 'Z' || 'a' <= c <= 'z' || '0' <= c <= '9' || c == '-' || c == '_' || c == '.'
  }

  lemma DataKeyInjective(k1: seq<byte>, k2: seq<byte>)
    requires DataKey(k1) == DataKey(k2)
    ensures k1 == k2
  {
    assert DataKey(k1)[6..] == Encode(k1) && DataKey(k2)[6..] == Encode(k2);
    DecodeEncode(k1);
    DecodeEncode(k2);
  }

  lemma GroupLegal(x: byte, y: byte, z: byte)
    ensures forall i :: 0 <= i < 4 ==> DataKeyChar(Group(x, y, z)[i])
  {
  }

  lemma {:induction false} EncodeLegal(s: seq<byte>)
    ensures forall i :: 0 <= i < |Encode(s)| ==> DataKeyChar(Encode(s)[i])
  {
    if |s| < 3 {
    } else {
      EncodeLegal(s[3..]);
      GroupLegal(s[0], s[1], s[2]);
    }
  }

  /** Whatever bytes a state key holds ("/", ":", ...), its data key is legal. */
  lemma DataKeyLegal(key: seq<byte>)
    ensures DataKey(key) != [] && forall i :: 0 <= i < |DataKey(key)| ==> DataKeyChar(DataKey(key)[i])
  {
    EncodeLegal(key);
  }
}
