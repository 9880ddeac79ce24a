/** Artifact paths in the URL: percent-encoding of each segment, per section 2.1 of RFC 3986 over UTF-8. */
module ArtifactPath {
  import opened Base
  import opened Text

  type Byte = b: int | 0 <= b < 256

  // ----- one character

  /** The characters that encodeURIComponent leaves alone. */
  predicate Unreserved(c: char) {
    'a' <= c <= 'z' || 'A' <= c <= 'Z' || '0' <= c <= '9' || c in "-_.!~*'()"
  }

  function Utf8(c: char): seq<Byte> {
    var n := c as int;
    if n < 0x80 then [n]
    else if n < 0x800 then [0xC0 + n / 64, 0x80 + n % 64]
    else if n < 0x10000 then [0xE0 + n / 4096, 0x80 + n / 64 % 64, 0x80 + n % 64]
    else [0xF0 + n / 262144, 0x80 + n / 4096 % 64, 0x80 + n / 64 % 64, 0x80 + n % 64]
  }

  function HexDigit(d: int): char
    requires 0 <= d < 16
  {
    if d < 10 then ('0' as int + d) as char else ('A' as int + d - 10) as char
  }

  function HexValue(c: char): Option<int> {
    if '0' <= c <= '9' then Some(c as int - '0' as int)
    else if 'A' <= c <= 'F' then Some(c as int - 'A' as int + 10)
    else if 'a' <= c <= 'f' then Some(c as int - 'a' as int + 10)
    else None
  }

  function Percent(b: Byte): string { ['%', HexDigit(b / 16), HexDigit(b % 16)] }

  function PercentAll(bytes: seq<Byte>): string {
    if bytes == [] then "" else Percent(bytes[0]) + PercentAll(bytes[1..])
  }

  function EncodeChar(c: char): string {
    if Unreserved(c) then [c] else PercentAll(Utf8(c))
  }

  function Encode(s: string): string {
    if s == "" then "" else EncodeChar(s[0]) + Encode(s[1..])
  }

  // ----- decoding

  /** The byte that the escape at the start of `s` stands for. */
  function Octet(s: string): Option<int> {
    if |s| < 3 || s[0] != '%' then None
    else
      var hi, lo := HexValue(s[1]), HexValue(s[2]);
      if hi.None? || lo.None? then None else Some(16 * hi.value + lo.value)
  }

  /** The six bits of the continuation escape at the start of `s`. */
  function Continuation(s: string): Option<int> {
    var b := Octet(s);
    if b.Some? && 0x80 <= b.value < 0xC0 then Some(b.value - 0x80) else None
  }

  /** How many escapes the character with this first byte takes; zero for a byte that starts none. */
  function Width(b: int): nat {
    if b < 0x80 then 1 else if b < 0xC0 then 0 else if b < 0xE0 then 2 else if b < 0xF0 then 3
    else if b < 0xF8 then 4 else 0
  }

  predicate Scalar(n: int) { 0 <= n < 0xD800 || 0xE000 <= n < 0x110000 }

  /** The code point of the escaped character at the start of `s`, whose first byte is `b`. */
  function CodePoint(s: string, b: int): Option<int> {
    match Width(b)
    case 1 => Some(b)
    case 2 =>
      if |s| < 6 || Continuation(s[3..]).None? then None
      else
        var n := (b - 0xC0) * 64 + Continuation(s[3..]).value;
        if n >= 0x80 then Some(n) else None
    case 3 =>
      if |s| < 9 || Continuation(s[3..]).None? || Continuation(s[6..]).None? then None
      else
        var n := (b - 0xE0) * 4096 + Continuation(s[3..]).value * 64 + Continuation(s[6..]).value;
        if n >= 0x800 then Some(n) else None
    case 4 =>
      if |s| < 12 || Continuation(s[3..]).None? || Continuation(s[6..]).None? || Continuation(s[9..]).None? then None
      else
        var n := (b - 0xF0) * 262144 + Continuation(s[3..]).value * 4096 + Continuation(s[6..]).value * 64
                 + Continuation(s[9..]).value;
        if n >= 0x10000 then Some(n) else None
    case _ => None
  }

  /** `None` where decodeURIComponent raises. */
  function Decode(s: string): Option<string>
    decreases |s|
  {
    if s == "" then Some("")
    else if s[0] != '%' then
      var rest := Decode(s[1..]);
      if rest.None? then None else Some([s[0]] + rest.value)
    else
      var b := Octet(s);
      if b.None? then None
      else
        var n := CodePoint(s, b.value);
        if n.None? || !Scalar(n.value) || |s| < 3 * Width(b.value) || Width(b.value) == 0 then None
        else
          var rest := Decode(s[3 * Width(b.value)..]);
          if rest.None? then None else Some([n.value as char] + rest.value)
  }

  // ----- one segment survives the round trip

  lemma {:induction false} PercentOctet(b: Byte, rest: string)
    ensures Octet(Percent(b) + rest) == Some(b)
    ensures (Percent(b) + rest)[3..] == rest && |Percent(b) + rest| == 3 + |rest|
  {
    var s := Percent(b) + rest;
    assert s[1] == HexDigit(b / 16) && s[2] == HexDigit(b % 16);
  }

  lemma {:induction false} PercentOne(a: Byte, more: seq<Byte>, rest: string)
    ensures PercentAll([a] + more) + rest == Percent(a) + (PercentAll(more) + rest)
  {
    assert ([a] + more)[1..] == more;
  }

  /** The escape of a continuation byte gives its six bits back. */
  lemma {:induction false} ReadContinuation(d: int, more: seq<Byte>, rest: string)
    requires 0 <= d < 64
    ensures var s := PercentAll([0x80 + d] + more) + rest;
            |s| >= 3 && Continuation(s) == Some(d) && s[3..] == PercentAll(more) + rest
  {
    PercentOne(0x80 + d, more, rest);
    PercentOctet(0x80 + d, PercentAll(more) + rest);
  }

  lemma {:induction false} ReadFirst(a: Byte, more: seq<Byte>, rest: string)
    ensures var s := PercentAll([a] + more) + rest;
            |s| >= 3 && s[0] == '%' && Octet(s) == Some(a) && s[3..] == PercentAll(more) + rest
  {
    PercentOne(a, more, rest);
    PercentOctet(a, PercentAll(more) + rest);
  }

  /** What decoding reads at the start of `s`: the character `c`, and `rest` after it. */
  ghost predicate Reads(s: string, c: char, rest: string) {
    && |s| >= 3 && s[0] == '%' && Octet(s).Some?
    && var w := Width(Octet(s).value);
       w >= 1 && |s| >= 3 * w && CodePoint(s, Octet(s).value) == Some(c as int) && s[3 * w..] == rest
  }

  lemma {:induction false} ReadsOne(c: char, rest: string)
    requires (c as int) < 0x80
    ensures Reads(PercentAll(Utf8(c)) + rest, c, rest)
  {
    var n := c as int;
    assert Utf8(c) == [n] + [];
    ReadFirst(n, [], rest);
    assert PercentAll([]) + rest == rest;
  }

  lemma {:induction false} CodePointTwo(s: string, a: int, d: int)
    requires 0 <= a < 32 && |s| >= 6 && Continuation(s[3..]) == Some(d) && a * 64 + d >= 0x80
    ensures Width(0xC0 + a) == 2 && CodePoint(s, 0xC0 + a) == Some(a * 64 + d)
  {
  }

  lemma {:induction false} CodePointThree(s: string, a: int, d: int, e: int)
    requires 0 <= a < 16 && |s| >= 9 && Continuation(s[3..]) == Some(d) && Continuation(s[6..]) == Some(e)
    requires a * 4096 + d * 64 + e >= 0x800
    ensures Width(0xE0 + a) == 3 && CodePoint(s, 0xE0 + a) == Some(a * 4096 + d * 64 + e)
  {
  }

  lemma {:induction false} CodePointFour(s: string, a: int, d: int, e: int, f: int)
    requires 0 <= a < 8 && |s| >= 12
    requires Continuation(s[3..]) == Some(d) && Continuation(s[6..]) == Some(e) && Continuation(s[9..]) == Some(f)
    requires a * 262144 + d * 4096 + e * 64 + f >= 0x10000
    ensures Width(0xF0 + a) == 4 && CodePoint(s, 0xF0 + a) == Some(a * 262144 + d * 4096 + e * 64 + f)
  {
  }

  lemma {:induction false} TwoReads(a: int, d: int, c: char, rest: string)
    requires 0 <= a < 32 && 0 <= d < 64 && c as int == a * 64 + d >= 0x80
    ensures Reads(PercentAll([0xC0 + a] + ([0x80 + d] + [])) + rest, c, rest)
  {
    ReadFirst(0xC0 + a, [0x80 + d] + [], rest);
    ReadContinuation(d, [], rest);
    var s := PercentAll([0xC0 + a] + ([0x80 + d] + [])) + rest;
    assert PercentAll([]) + rest == rest;
    Dropped(s, 3, 3);
    ReadsByTwo(s, a, d, c, rest);
  }

  lemma {:induction false} ReadsByTwo(s: string, a: int, d: int, c: char, rest: string)
    requires 0 <= a < 32 && |s| >= 6 && s[0] == '%' && Octet(s) == Some(0xC0 + a) && s[6..] == rest
    requires Continuation(s[3..]) == Some(d) && c as int == a * 64 + d >= 0x80
    ensures Reads(s, c, rest)
  {
    CodePointTwo(s, a, d);
  }

  lemma {:induction false} TwoContinuations(d: int, e: int, more: seq<Byte>, rest: string)
    requires 0 <= d < 64 && 0 <= e < 64
    ensures var t := PercentAll([0x80 + d] + ([0x80 + e] + more)) + rest;
            && |t| >= 6 && Continuation(t) == Some(d) && Continuation(t[3..]) == Some(e)
            && t[6..] == PercentAll(more) + rest
  {
    ReadContinuation(d, [0x80 + e] + more, rest);
    ReadContinuation(e, more, rest);
    var t := PercentAll([0x80 + d] + ([0x80 + e] + more)) + rest;
    assert t[6..] == t[3..][3..];
  }

  lemma {:induction false} ThreeContinuations(d: int, e: int, f: int, rest: string)
    requires 0 <= d < 64 && 0 <= e < 64 && 0 <= f < 64
    ensures var t := PercentAll([0x80 + d] + ([0x80 + e] + ([0x80 + f] + []))) + rest;
            && |t| >= 9 && Continuation(t) == Some(d) && Continuation(t[3..]) == Some(e)
            && Continuation(t[6..]) == Some(f) && t[9..] == rest
  {
    TwoContinuations(d, e, [0x80 + f] + [], rest);
    ReadContinuation(f, [], rest);
    var t := PercentAll([0x80 + d] + ([0x80 + e] + ([0x80 + f] + []))) + rest;
    assert PercentAll([]) + rest == rest;
    assert t[9..] == t[6..][3..];
  }

  lemma {:induction false} Dropped(s: string, i: nat, j: nat)
    requires i + j <= |s|
    ensures s[i + j..] == s[i..][j..]
  {
  }

  lemma {:induction false} ThreeReads(a: int, d: int, e: int, c: char, rest: string)
    requires 0 <= a < 16 && 0 <= d < 64 && 0 <= e < 64 && c as int == a * 4096 + d * 64 + e >= 0x800
    ensures Reads(PercentAll([0xE0 + a] + ([0x80 + d] + ([0x80 + e] + []))) + rest, c, rest)
  {
    var more := [0x80 + d] + ([0x80 + e] + []);
    ReadFirst(0xE0 + a, more, rest);
    TwoContinuations(d, e, [], rest);
    var s := PercentAll([0xE0 + a] + more) + rest;
    assert PercentAll([]) + rest == rest;
    Dropped(s, 3, 3);
    Dropped(s, 3, 6);
    ReadsByThree(s, a, d, e, c, rest);
  }

  lemma {:induction false} ReadsByThree(s: string, a: int, d: int, e: int, c: char, rest: string)
    requires 0 <= a < 16 && |s| >= 9 && s[0] == '%' && Octet(s) == Some(0xE0 + a) && s[9..] == rest
    requires Continuation(s[3..]) == Some(d) && Continuation(s[6..]) == Some(e)
    requires c as int == a * 4096 + d * 64 + e >= 0x800
    ensures Reads(s, c, rest)
  {
    CodePointThree(s, a, d, e);
  }

  lemma {:induction false} FourReads(a: int, d: int, e: int, f: int, c: char, rest: string)
    requires 0 <= a < 8 && 0 <= d < 64 && 0 <= e < 64 && 0 <= f < 64
    requires c as int == a * 262144 + d * 4096 + e * 64 + f >= 0x10000
    ensures Reads(PercentAll([0xF0 + a] + ([0x80 + d] + ([0x80 + e] + ([0x80 + f] + [])))) + rest, c, rest)
  {
    var more := [0x80 + d] + ([0x80 + e] + ([0x80 + f] + []));
    ReadFirst(0xF0 + a, more, rest);
    ThreeContinuations(d, e, f, rest);
    var s := PercentAll([0xF0 + a] + more) + rest;
    Dropped(s, 3, 3);
    Dropped(s, 3, 6);
    Dropped(s, 3, 9);
    ReadsByFour(s, a, d, e, f, c, rest);
  }

  lemma {:induction false} ReadsByFour(s: string, a: int, d: int, e: int, f: int, c: char, rest: string)
    requires 0 <= a < 8 && |s| >= 12 && s[0] == '%' && Octet(s) == Some(0xF0 + a) && s[12..] == rest
    requires Continuation(s[3..]) == Some(d) && Continuation(s[6..]) == Some(e) && Continuation(s[9..]) == Some(f)
    requires c as int == a * 262144 + d * 4096 + e * 64 + f >= 0x10000
    ensures Reads(s, c, rest)
  {
    CodePointFour(s, a, d, e, f);
  }

  /** The digits of a code point to the base 64. */
  lemma {:induction false} Base64Digits(n: int)
    requires 0 <= n < 0x110000
    ensures n == n / 64 * 64 + n % 64
    ensures n == n / 4096 * 4096 + n / 64 % 64 * 64 + n % 64
    ensures n == n / 262144 * 262144 + n / 4096 % 64 * 4096 + n / 64 % 64 * 64 + n % 64
  {
    assert n / 4096 == n / 64 / 64;
    assert n / 262144 == n / 4096 / 64;
  }

  lemma {:induction false} ReadsTwo(c: char, rest: string)
    requires 0x80 <= c as int < 0x800
    ensures Reads(PercentAll(Utf8(c)) + rest, c, rest)
  {
    var n := c as int;
    Base64Digits(n);
    assert Utf8(c) == [0xC0 + n / 64] + ([0x80 + n % 64] + []);
    TwoReads(n / 64, n % 64, c, rest);
  }

  lemma {:induction false} ReadsThree(c: char, rest: string)
    requires 0x800 <= c as int < 0x10000
    ensures Reads(PercentAll(Utf8(c)) + rest, c, rest)
  {
    var n := c as int;
    Base64Digits(n);
    assert Utf8(c) == [0xE0 + n / 4096] + ([0x80 + n / 64 % 64] + ([0x80 + n % 64] + []));
    ThreeReads(n / 4096, n / 64 % 64, n % 64, c, rest);
  }

  lemma {:induction false} FourInARow<T>(a: T, b: T, c: T, d: T)
    ensures [a, b, c, d] == [a] + ([b] + ([c] + ([d] + [])))
  {
  }

  lemma {:induction false} Utf8IsFour(c: char)
    requires 0x10000 <= c as int
    ensures var n := c as int;
            Utf8(c) == [0xF0 + n / 262144] + ([0x80 + n / 4096 % 64] + ([0x80 + n / 64 % 64] + ([0x80 + n % 64] + [])))
  {
    var n := c as int;
    FourInARow<Byte>(0xF0 + n / 262144, 0x80 + n / 4096 % 64, 0x80 + n / 64 % 64, 0x80 + n % 64);
  }

  lemma {:induction false} ReadsFour(c: char, rest: string)
    requires 0x10000 <= c as int
    ensures Reads(PercentAll(Utf8(c)) + rest, c, rest)
  {
    var n := c as int;
    Base64Digits(n);
    Utf8IsFour(c);
    FourReads(n / 262144, n / 4096 % 64, n / 64 % 64, n % 64, c, rest);
  }

  /** An escaped character decodes to itself, whatever follows. */
  lemma {:induction false} DecodeEscaped(c: char, rest: string)
    ensures Reads(PercentAll(Utf8(c)) + rest, c, rest)
  {
    if c as int < 0x80 {
      ReadsOne(c, rest);
    } else if c as int < 0x800 {
      ReadsTwo(c, rest);
    } else if c as int < 0x10000 {
      ReadsThree(c, rest);
    } else {
      ReadsFour(c, rest);
    }
  }

  lemma {:induction false} DecodeEncode(s: string)
    ensures Decode(Encode(s)) == Some(s)
  {
    if s != "" {
      DecodeEncode(s[1..]);
      var rest := Encode(s[1..]);
      if Unreserved(s[0]) {
        assert ([s[0]] + rest)[1..] == rest;
      } else {
        DecodeEscaped(s[0], rest);
      }
      assert s == [s[0]] + s[1..];
    }
  }

  lemma {:induction false} PercentHasNoSlash(bytes: seq<Byte>)
    ensures '/' !in PercentAll(bytes)
  {
    if bytes != [] {
      PercentHasNoSlash(bytes[1..]);
    }
  }

  lemma {:induction false} EncodeHasNoSlash(s: string)
    ensures '/' !in Encode(s) && (Encode(s) == "" <==> s == "")
  {
    if s != "" {
      EncodeHasNoSlash(s[1..]);
      PercentHasNoSlash(Utf8(s[0]));
      if !Unreserved(s[0]) {
        assert Percent(Utf8(s[0])[0]) <= PercentAll(Utf8(s[0]));
      }
    }
  }

  // ----- what is escaped

  /** The code points that stand for themselves in a path: letters, digits and nine marks. */
  predicate Plain(c: char) {
    var n := c as int;
    || 48 <= n <= 57 || 65 <= n <= 90 || 97 <= n <= 122
    || n in {33, 39, 40, 41, 42, 45, 46, 95, 126}
  }

  lemma {:induction false} PlainExactly(c: char)
    ensures Unreserved(c) <==> Plain(c)
  {
    assert "-_.!~*'()" == ['-', '_', '.', '!', '~', '*', '\'', '(', ')'];
  }

  /** Exactly these characters are left as they are. */
  lemma {:induction false} KeptExactly(c: char)
    ensures Encode([c]) == [c] <==> Plain(c)
  {
    assert [c][1..] == "" && Encode([c]) == EncodeChar(c) + Encode("");
    PlainExactly(c);
    if !Unreserved(c) {
      assert PercentAll(Utf8(c))[..3] == Percent(Utf8(c)[0]);
    }
  }

  /** Whatever is encoded, the result has only these characters and percent signs in it. */
  lemma {:induction false} EncodedAlphabet(s: string)
    ensures forall i :: 0 <= i < |Encode(s)| ==> Plain(Encode(s)[i]) || Encode(s)[i] == '%'
  {
    if s != "" {
      EncodedAlphabet(s[1..]);
      PlainExactly(s[0]);
      PercentAlphabet(Utf8(s[0]));
    }
  }

  lemma {:induction false} PercentAlphabet(bytes: seq<Byte>)
    ensures forall i :: 0 <= i < |PercentAll(bytes)| ==> Plain(PercentAll(bytes)[i]) || PercentAll(bytes)[i] == '%'
  {
    if bytes != [] {
      PercentAlphabet(bytes[1..]);
    }
  }

  /** A byte is escaped with two upper-case hexadecimal digits. */
  lemma {:induction false} PercentExactly(b: Byte)
    ensures var hex := "0123456789ABCDEF"; Percent(b) == ['%', hex[b / 16], hex[b % 16]]
  {
  }

  // ----- whole paths

  function NonEmpty(parts: seq<string>): (r: seq<string>)
    ensures forall i :: 0 <= i < |r| ==> r[i] != "" && r[i] in parts
  {
    if parts == [] then []
    else if parts[0] == "" then NonEmpty(parts[1..])
    else [parts[0]] + NonEmpty(parts[1..])
  }

  /** How many of the parts are not empty. */
  function Filled(parts: seq<string>): nat {
    if parts == [] then 0 else Filled(parts[..|parts| - 1]) + if parts[|parts| - 1] == "" then 0 else 1
  }

  lemma {:induction false} NonEmptySnoc(init: seq<string>, last: string)
    ensures NonEmpty(init + [last]) == NonEmpty(init) + if last == "" then [] else [last]
  {
    if init != [] {
      NonEmptySnoc(init[1..], last);
      assert (init + [last])[1..] == init[1..] + [last];
    }
  }

  /** Every part that is not empty is kept as it is and in its place, and no other. */
  lemma {:induction false} NonEmptyExactly(parts: seq<string>)
    ensures |NonEmpty(parts)| == Filled(parts)
    ensures forall k :: 0 <= k < |parts| && parts[k] != "" ==>
              Filled(parts[..k]) < Filled(parts) && NonEmpty(parts)[Filled(parts[..k])] == parts[k]
  {
    if parts != [] {
      var n := |parts| - 1;
      var init := parts[..n];
      NonEmptyExactly(init);
      NonEmptySnoc(init, parts[n]);
      assert parts == init + [parts[n]];
      forall k | 0 <= k < |parts| && parts[k] != ""
        ensures Filled(parts[..k]) < Filled(parts) && NonEmpty(parts)[Filled(parts[..k])] == parts[k]
      {
        if k < n {
          assert init[..k] == parts[..k] && init[k] == parts[k];
        }
      }
    }
  }

  function EncodeAll(parts: seq<string>): (r: seq<string>)
    ensures |r| == |parts| && forall i :: 0 <= i < |r| ==> r[i] == Encode(parts[i])
  {
    if parts == [] then [] else [Encode(parts[0])] + EncodeAll(parts[1..])
  }

  function DecodeAll(parts: seq<string>): Option<seq<string>> {
    if parts == [] then Some([])
    else
      var first, rest := Decode(parts[0]), DecodeAll(parts[1..]);
      if first.None? || rest.None? then None else Some([first.value] + rest.value)
  }

  function EncodePath(p: string): string {
    Join(EncodeAll(NonEmpty(Split(p, '/'))), '/')
  }

  function DecodePath(q: string): Option<string> {
    var parts := DecodeAll(Split(q, '/'));
    if parts.None? then None else Some(Join(parts.value, '/'))
  }

  lemma {:induction false} DecodeAllEncodeAll(parts: seq<string>)
    ensures DecodeAll(EncodeAll(parts)) == Some(parts)
  {
    if parts != [] {
      DecodeEncode(parts[0]);
      DecodeAllEncodeAll(parts[1..]);
      assert EncodeAll(parts)[1..] == EncodeAll(parts[1..]);
      assert parts == [parts[0]] + parts[1..];
    }
  }

  /** Encoding keeps the segments apart: the slashes of the result are exactly those between segments. */
  lemma {:induction false} EncodedSegments(p: string)
    requires NonEmpty(Split(p, '/')) != []
    ensures Split(EncodePath(p), '/') == EncodeAll(NonEmpty(Split(p, '/')))
  {
    var parts := EncodeAll(NonEmpty(Split(p, '/')));
    forall i | 0 <= i < |parts| ensures '/' !in parts[i] {
      EncodeHasNoSlash(NonEmpty(Split(p, '/'))[i]);
    }
    SplitJoin(parts, '/');
  }

  /** Decoding gives the path back without its empty segments. */
  lemma {:induction false} DecodeEncodePath(p: string)
    ensures DecodePath(EncodePath(p)) == Some(Join(NonEmpty(Split(p, '/')), '/'))
  {
    var parts := NonEmpty(Split(p, '/'));
    if parts == [] {
      assert Split("", '/') == [""];
      assert DecodeAll([""]) == Some([""] + []) by {
        assert [""][1..] == [];
      }
    } else {
      EncodedSegments(p);
      DecodeAllEncodeAll(parts);
    }
  }

  /** Characters of all parts together. */
  function Length(parts: seq<string>): nat { if parts == [] then 0 else |parts[0]| + Length(parts[1..]) }

  lemma {:induction false} JoinLength(parts: seq<string>)
    requires parts != []
    ensures |Join(parts, '/')| == Length(parts) + |parts| - 1
  {
    if |parts| > 1 {
      JoinLength(parts[1..]);
    }
  }

  lemma {:induction false} NonEmptyLength(parts: seq<string>)
    ensures Length(NonEmpty(parts)) == Length(parts) && |NonEmpty(parts)| <= |parts|
    ensures |NonEmpty(parts)| == |parts| <==> "" !in parts
    ensures "" !in parts ==> NonEmpty(parts) == parts
    ensures NonEmpty(parts) == [] ==> Length(parts) == 0
  {
    if parts != [] {
      NonEmptyLength(parts[1..]);
      assert parts == [parts[0]] + parts[1..];
    }
  }

  /** The round trip is the identity exactly on the empty path and on paths without an empty segment. */
  lemma {:induction false} RoundTripExactly(p: string)
    ensures DecodePath(EncodePath(p)) == Some(p) <==> p == "" || "" !in Split(p, '/')
  {
    DecodeEncodePath(p);
    JoinSplit(p, '/');
    var parts := Split(p, '/');
    NonEmptyLength(parts);
    JoinLength(parts);
    if p == "" {
      assert NonEmpty([""]) == [] by {
        assert [""][1..] == [];
      }
    } else if NonEmpty(parts) != [] {
      JoinLength(NonEmpty(parts));
    }
  }
}
