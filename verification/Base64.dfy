/** The text form of a delta on the wire and in the stream: apps/web/src/lib/base64.ts. */
module Base64 {
  /** A string that stands for bytes. */
  predicate IsBytes(s: string) {
    forall i :: 0 <= i < |s| ==> s[i] as int < 256
  }

  /** The character for six bits. */
  function Symbol(v: nat): char
    requires v < 64
  {
    if v < 26 then (65 + v) as char
    else if v < 52 then (71 + v) as char
    else if v < 62 then (v - 4) as char
    else if v == 62 then '+' else '/'
  }

  function Value(c: char): nat {
    var n := c as int;
    if 65 <= n <= 90 then n - 65
    else if 97 <= n <= 122 then n - 71
    else if 48 <= n <= 57 then n + 4
    else if c == '+' then 62 else 63
  }

  lemma ValueOfSymbol(v: nat)
    requires v < 64
    ensures Value(Symbol(v)) == v && Symbol(v) != '='
  {
  }

  /** The four characters for the first `n` of three bytes; what is missing is filled up with '='. */
  function Quad(x: nat, y: nat, z: nat, n: nat): (g: string)
    requires x < 256 && y < 256 && z < 256
    ensures |g| == 4
  {
    [Symbol(x / 4), Symbol(x % 4 * 16 + y / 16),
     if n > 1 then Symbol(y % 16 * 4 + z / 64) else '=',
     if n > 2 then Symbol(z % 64) else '=']
  }

  function ByteAt(b: string, i: nat): (x: nat)
    requires IsBytes(b)
    ensures x < 256
  {
    if i < |b| then b[i] as nat else 0
  }

  function Encode(b: string): string
    requires IsBytes(b)
  {
    if b == "" then ""
    else
      Quad(ByteAt(b, 0), ByteAt(b, 1), ByteAt(b, 2), |b|) + if |b| > 3 then Encode(b[3..]) else ""
  }

  function First(p: nat, q: nat): char {
    ((p * 4 + q / 16) % 256) as char
  }

  function Second(q: nat, r: nat): char {
    ((q % 16 * 16 + r / 4) % 256) as char
  }

  function Third(r: nat, t: nat): char {
    ((r % 4 * 64 + t) % 256) as char
  }

  function Unquad(g: string): string
    requires |g| == 4
  {
    [First(Value(g[0]), Value(g[1]))]
    + (if g[2] == '=' then "" else [Second(Value(g[1]), Value(g[2]))])
    + (if g[3] == '=' then "" else [Third(Value(g[2]), Value(g[3]))])
  }

  function Decode(s: string): string {
    if |s| < 4 then "" else Unquad(s[..4]) + Decode(s[4..])
  }

  lemma SixBits(x: nat, y: nat, z: nat)
    requires x < 256 && y < 256 && z < 256
    ensures x / 4 < 64 && x % 4 * 16 + y / 16 < 64 && y % 16 * 4 + z / 64 < 64 && z % 64 < 64
  {
  }

  lemma FirstByte(x: nat, y: nat)
    requires x < 256 && y < 256
    ensures First(x / 4, x % 4 * 16 + y / 16) == x as char
  {
    assert x / 4 * 4 + (x % 4 * 16 + y / 16) / 16 == x;
  }

  lemma SecondByte(x: nat, y: nat, z: nat)
    requires x < 256 && y < 256 && z < 256
    ensures Second(x % 4 * 16 + y / 16, y % 16 * 4 + z / 64) == y as char
  {
    assert (x % 4 * 16 + y / 16) % 16 == y / 16;
    assert (y % 16 * 4 + z / 64) / 4 == y % 16;
  }

  lemma ThirdByte(y: nat, z: nat)
    requires y < 256 && z < 256
    ensures Third(y % 16 * 4 + z / 64, z % 64) == z as char
  {
    assert (y % 16 * 4 + z / 64) % 4 * 64 + z % 64 == z;
  }

  lemma {:induction false} EncodedLength(b: string)
    requires IsBytes(b)
    ensures |Encode(b)| == (|b| + 2) / 3 * 4
  {
    if |b| > 3 {
      var n := |b| - 3;
      EncodedLength(b[3..]);
      assert |Encode(b)| == 4 + |Encode(b[3..])|;
      assert (|b| + 2) / 3 == 1 + (n + 2) / 3;
    }
  }

  /** The bytes a group of `n` stands for. */
  function Bytes(x: nat, y: nat, z: nat, n: nat): string
    requires x < 256 && y < 256 && z < 256
  {
    [x as char] + (if n > 1 then [y as char] else "") + (if n > 2 then [z as char] else "")
  }

  lemma UnquadQuad(x: nat, y: nat, z: nat, n: nat)
    requires x < 256 && y < 256 && z < 256
    ensures Unquad(Quad(x, y, z, n)) == Bytes(x, y, z, n)
  {
    SixBits(x, y, z);
    var p, q, r, t := x / 4, x % 4 * 16 + y / 16, y % 16 * 4 + z / 64, z % 64;
    ValueOfSymbol(p);
    ValueOfSymbol(q);
    ValueOfSymbol(r);
    ValueOfSymbol(t);
    FirstByte(x, y);
    SecondByte(x, y, z);
    ThirdByte(y, z);
    var g := Quad(x, y, z, n);
    assert g[0] == Symbol(p) && g[1] == Symbol(q);
  }

  lemma BytesSplit(b: string)
    requires IsBytes(b) && b != ""
    ensures b == Bytes(ByteAt(b, 0), ByteAt(b, 1), ByteAt(b, 2), |b|) + if |b| > 3 then b[3..] else ""
  {
  }

  lemma DecodeNext(g: string, rest: string)
    requires |g| == 4
    ensures Decode(g + rest) == Unquad(g) + Decode(rest)
  {
    assert (g + rest)[..4] == g && (g + rest)[4..] == rest;
  }

  /** Decoding gives back the bytes. */
  lemma {:induction false} RoundTrip(b: string)
    requires IsBytes(b)
    ensures Decode(Encode(b)) == b
  {
    if b != "" {
      var g := Quad(ByteAt(b, 0), ByteAt(b, 1), ByteAt(b, 2), |b|);
      UnquadQuad(ByteAt(b, 0), ByteAt(b, 1), ByteAt(b, 2), |b|);
      BytesSplit(b);
      if |b| > 3 {
        RoundTrip(b[3..]);
        DecodeNext(g, Encode(b[3..]));
      } else {
        DecodeNext(g, "");
      }
    }
  }

  /** The test vectors of section 10 of RFC 4648, and the two characters they leave out. */
  lemma Vectors()
    ensures Encode("") == "" && Encode("f") == "Zg==" && Encode("fo") == "Zm8=" && Encode("foo") == "Zm9v"
    ensures Symbol(62) == '+' && Symbol(63) == '/'
  {
    F();
    Fo();
    Foo();
  }

  lemma LongVectors()
    ensures Encode("foob") == "Zm9vYg==" && Encode("fooba") == "Zm9vYmE=" && Encode("foobar") == "Zm9vYmFy"
  {
    FooB();
    FooBa();
    FooBar();
  }

  lemma FooB()
    ensures Encode("foob") == "Zm9vYg=="
  {
    Foo();
    B();
    Joined("foo", "b", "Zm9v", "Yg==", "foob", "Zm9vYg==");
  }

  lemma FooBa()
    ensures Encode("fooba") == "Zm9vYmE="
  {
    Foo();
    Ba();
    Joined("foo", "ba", "Zm9v", "YmE=", "fooba", "Zm9vYmE=");
  }

  lemma FooBar()
    ensures Encode("foobar") == "Zm9vYmFy"
  {
    Foo();
    Bar();
    Joined("foo", "bar", "Zm9v", "YmFy", "foobar", "Zm9vYmFy");
  }

  lemma Joined(head: string, rest: string, h: string, r: string, all: string, text: string)
    requires IsBytes(head) && IsBytes(rest) && |head| == 3 && rest != "" && Encode(head) == h && Encode(rest) == r
    requires head + rest == all && h + r == text
    ensures Encode(all) == text
  {
    assert all[3..] == rest;
  }

  lemma F()
    ensures Encode("f") == "Zg=="
  {
    assert Quad(102, 0, 0, 1) == "Zg==";
    assert 'f' as nat == 102;
  }

  lemma Fo()
    ensures Encode("fo") == "Zm8="
  {
    assert Quad(102, 111, 0, 2) == "Zm8=";
    assert 'f' as nat == 102 && 'o' as nat == 111;
  }

  lemma Foo()
    ensures Encode("foo") == "Zm9v"
  {
    assert Quad(102, 111, 111, 3) == "Zm9v";
    assert 'f' as nat == 102 && 'o' as nat == 111;
  }

  lemma B()
    ensures Encode("b") == "Yg=="
  {
    assert Quad(98, 0, 0, 1) == "Yg==";
    assert 'b' as nat == 98;
  }

  lemma Ba()
    ensures Encode("ba") == "YmE="
  {
    assert Quad(98, 97, 0, 2) == "YmE=";
    assert 'b' as nat == 98 && 'a' as nat == 97;
  }

  lemma Bar()
    ensures Encode("bar") == "YmFy"
  {
    assert Quad(98, 97, 114, 3) == "YmFy";
    assert 'b' as nat == 98 && 'a' as nat == 97 && 'r' as nat == 114;
  }

  /** No non-empty text is its own encoding, so what is stored never is the delta itself. */
  lemma EncodedDiffers(b: string)
    requires IsBytes(b) && b != ""
    ensures Encode(b) != b && Encode(b) != ""
  {
    EncodedLength(b);
  }
}
