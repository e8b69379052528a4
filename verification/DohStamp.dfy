/** The DNS stamp that the custom DNS-over-HTTPS provider is configured with
    (internal/system/doh.go), against an independent decoder for the format that
    "DNS-over-HTTPS stamps" in the DNS Stamps specification describes, on top of unpadded base64url
    (section 5 of RFC 4648). */
module DohStamp {
  import opened Options

  type byte = x: int | 0 <= x < 256

  type sextet = x: int | 0 <= x < 64

  // ----- base64url without padding

  function CharOf(n: sextet): char {
    if n < 26 then (65 + n) as char
    else if n < 52 then (71 + n) as char
    else if n < 62 then (n - 4) as char
    else if n == 62 then '-' else '_'
  }

  function ValueOf(c: char): Option<sextet> {
    if 'A' <= c <= 'Z' then Some(c as int - 65)
    else if 'a' <= c <= 'z' then Some(c as int - 71)
    else if '0' <= c <= '9' then Some(c as int + 4)
    else if c == '-' then Some(62)
    else if c == '_' then Some(63)
    else None
  }

  function Sextet0(b0: byte): sextet {
    b0 / 4
  }

  function Sextet1(b0: byte, b1: byte): sextet {
    b0 % 4 * 16 + b1 / 16
  }

  function Sextet2(b1: byte, b2: byte): sextet {
    b1 % 16 * 4 + b2 / 64
  }

  function Sextet3(b2: byte): sextet {
    b2 % 64
  }

  /** Three bytes make four characters; a shorter last group is filled with zero bits. */
  function Encode(b: seq<byte>): string {
    if |b| == 0 then ""
    else if |b| == 1 then [CharOf(Sextet0(b[0])), CharOf(Sextet1(b[0], 0))]
    else if |b| == 2 then [CharOf(Sextet0(b[0])), CharOf(Sextet1(b[0], b[1])), CharOf(Sextet2(b[1], 0))]
    else
      [CharOf(Sextet0(b[0])), CharOf(Sextet1(b[0], b[1])), CharOf(Sextet2(b[1], b[2])), CharOf(Sextet3(b[2]))]
      + Encode(b[3..])
  }

  function Byte0(v0: sextet, v1: sextet): byte {
    v0 * 4 + v1 / 16
  }

  function Byte1(v1: sextet, v2: sextet): byte {
    v1 % 16 * 16 + v2 / 4
  }

  function Byte2(v2: sextet, v3: sextet): byte {
    v2 % 4 * 64 + v3
  }

  function Decode(s: string): Option<seq<byte>> {
    if |s| == 0 then Some([])
    else if |s| == 1 || ValueOf(s[0]).None? || ValueOf(s[1]).None? then None
    else
      var v0, v1 := ValueOf(s[0]).value, ValueOf(s[1]).value;
      if |s| == 2 then Some([Byte0(v0, v1)])
      else if ValueOf(s[2]).None? then None
      else
        var v2 := ValueOf(s[2]).value;
        if |s| == 3 then Some([Byte0(v0, v1), Byte1(v1, v2)])
        else if ValueOf(s[3]).None? then None
        else
          var v3 := ValueOf(s[3]).value;
          var rest := Decode(s[4..]);
          if rest.None? then None else Some([Byte0(v0, v1), Byte1(v1, v2), Byte2(v2, v3)] + rest.value)
  }

  lemma CharValue(n: sextet)
    ensures ValueOf(CharOf(n)) == Some(n)
  {
  }

  lemma GroupBytes(b0: byte, b1: byte, b2: byte)
    ensures Byte0(Sextet0(b0), Sextet1(b0, b1)) == b0
    ensures Byte1(Sextet1(b0, b1), Sextet2(b1, b2)) == b1
    ensures Byte2(Sextet2(b1, b2), Sextet3(b2)) == b2
  {
  }

  lemma DecodeGroup(v0: sextet, v1: sextet, v2: sextet, v3: sextet, rest: string)
    requires Decode(rest).Some?
    ensures Decode([CharOf(v0), CharOf(v1), CharOf(v2), CharOf(v3)] + rest)
         == Some([Byte0(v0, v1), Byte1(v1, v2), Byte2(v2, v3)] + Decode(rest).value)
  {
    hide CharOf, ValueOf, Byte0, Byte1, Byte2;
    CharValue(v0);
    CharValue(v1);
    CharValue(v2);
    CharValue(v3);
    var s := [CharOf(v0), CharOf(v1), CharOf(v2), CharOf(v3)] + rest;
    assert s[4..] == rest;
  }

  lemma DecodeLast(b: seq<byte>)
    requires |b| < 3
    ensures Decode(Encode(b)) == Some(b)
  {
    hide CharOf, ValueOf, Byte0, Byte1, Byte2, Sextet0, Sextet1, Sextet2, Sextet3;
    if |b| > 0 {
      var b1: byte := if |b| > 1 then b[1] else 0;
      GroupBytes(b[0], b1, 0);
      CharValue(Sextet0(b[0]));
      CharValue(Sextet1(b[0], b1));
      CharValue(Sextet2(b1, 0));
      assert b == if |b| == 1 then [b[0]] else [b[0], b1];
    }
  }

  lemma {:induction false} DecodeEncode(b: seq<byte>)
    ensures Decode(Encode(b)) == Some(b)
  {
    hide CharOf, Byte0, Byte1, Byte2, Decode, Sextet0, Sextet1, Sextet2, Sextet3;
    if |b| < 3 {
      DecodeLast(b);
    } else {
      GroupBytes(b[0], b[1], b[2]);
      DecodeEncode(b[3..]);
      DecodeGroup(Sextet0(b[0]), Sextet1(b[0], b[1]), Sextet2(b[1], b[2]), Sextet3(b[2]), Encode(b[3..]));
      assert b == [b[0], b[1], b[2]] + b[3..];
    }
  }

  // ----- length-prefixed fields

  /** A data field: its length, cut to one byte, and the data. */
  function LP(data: seq<byte>): seq<byte> {
    [|data| % 256] + data
  }

  function ReadLP(s: seq<byte>): Option<(seq<byte>, seq<byte>)> {
    if s == [] then None
    else
      var n: int := s[0];
      if |s| - 1 < n then None else Some((s[1..n + 1], s[n + 1..]))
  }

  /** A list of data fields: all lengths but the last have the top bit set. */
  function ReadVLP(s: seq<byte>): Option<(seq<seq<byte>>, seq<byte>)>
    decreases |s|
  {
    if s == [] then None
    else
      var n: int := s[0] % 128;
      if |s| - 1 < n then None
      else
      var data, rest := s[1..n + 1], s[n + 1..];
      if s[0] < 128 then Some(([data], rest))
      else
        match ReadVLP(rest)
        case None => None
        case Some((more, rest')) => Some(([data] + more, rest'))
  }

  lemma ReadLPExact(data: seq<byte>, rest: seq<byte>)
    ensures |data| < 256 ==> ReadLP(LP(data) + rest) == Some((data, rest))
    ensures |data| >= 256 ==> ReadLP(LP(data) + rest).Some? && |ReadLP(LP(data) + rest).value.0| < |data|
  {
    var s := LP(data) + rest;
    assert s[0] == |data| % 256;
    if |data| < 256 {
      assert s[1..|data| + 1] == data && s[|data| + 1..] == rest;
    }
  }

  // ----- the stamp

  /** What `url.Parse` delivers. */
  datatype URL = URL(scheme: string, hostname: seq<byte>, path: seq<byte>)

  datatype Stamp = Stamp(
    props: seq<byte>, addr: seq<byte>, hashes: seq<seq<byte>>, hostname: seq<byte>, path: seq<byte>)

  const PREFIX := "sdns://"
  const NO_PROPS: seq<byte> := [0, 0, 0, 0, 0, 0, 0, 0]
  const DNS_QUERY: seq<byte> := [47, 100, 110, 115, 45, 113, 117, 101, 114, 121]  // "/dns-query"

  function PathOf(u: URL): seq<byte> {
    if u.path == [] then DNS_QUERY else u.path
  }

  function ByteOf(c: char): byte {
    c as int % 256
  }

  function Ascii(s: string): seq<byte> {
    seq(|s|, i requires 0 <= i < |s| => ByteOf(s[i]))
  }

  lemma QueryPath()
    ensures DNS_QUERY == Ascii("/dns-query")
  {
  }

  method WriteLP(buf: seq<byte>, data: seq<byte>) returns (r: seq<byte>)
    ensures r == buf + LP(data)
  {
    r := buf + [|data| % 256];
    r := r + data;
  }

  /** `buildDoHStamp`; `parsed` is the outcome of parsing the URL. */
  method BuildDoHStamp(parsed: Option<URL>) returns (r: Option<string>)
    ensures r.Some? <==> parsed.Some? && parsed.value.scheme == "https"
    ensures r.Some? ==> r.value == PREFIX + Encode(StampBytes(parsed.value.hostname, PathOf(parsed.value)))
    ensures r.Some? ==>
              var host := parsed.value.hostname;
              var path := if parsed.value.path == [] then Ascii("/dns-query") else parsed.value.path;
              (ReadStamp(r.value) == Some(Stamp([0, 0, 0, 0, 0, 0, 0, 0], [], [[]], host, path))
               <==> |host| < 256 && |path| < 256)
  {
    hide ReadStamp, Encode, StampBytes;
    if parsed.None? || parsed.value.scheme != "https" {
      return None;
    }
    var u := parsed.value;
    var path := u.path;
    if path == [] {
      path := DNS_QUERY;
    }
    var buf: seq<byte> := [0x02];
    buf := buf + NO_PROPS;
    buf := WriteLP(buf, []);
    buf := WriteLP(buf, []);
    buf := WriteLP(buf, u.hostname);
    buf := WriteLP(buf, path);
    assert buf == StampBytes(u.hostname, path) by {
      StampParts(u.hostname, path);
    }
    QueryPath();
    StampRoundTrip(u.hostname, path);
    return Some(PREFIX + Encode(buf));
  }

  function StampBytes(hostname: seq<byte>, path: seq<byte>): seq<byte> {
    [0x02] + NO_PROPS + LP([]) + LP([]) + LP(hostname) + LP(path)
  }

  lemma StampParts(hostname: seq<byte>, path: seq<byte>)
    ensures StampBytes(hostname, path) == [0x02] + NO_PROPS + LP([]) + LP([]) + LP(hostname) + LP(path)
  {
  }

  /** A DNS-over-HTTPS stamp begins with protocol 0x02, eight property bytes, the address, the
      certificate hashes, the host name and the path. Bootstrap addresses may follow; they are not read. */
  function ReadStamp(text: string): Option<Stamp> {
    if !(PREFIX <= text) then None
    else
      match Decode(text[|PREFIX|..])
      case None => None
      case Some(b) =>
        if |b| < 9 || b[0] != 0x02 then None
        else
          match ReadLP(b[9..])
          case None => None
          case Some((addr, b1)) =>
            match ReadVLP(b1)
            case None => None
            case Some((hashes, b2)) =>
              match ReadLP(b2)
              case None => None
              case Some((hostname, b3)) =>
                match ReadLP(b3)
                case None => None
                case Some((path, _)) => Some(Stamp(b[1..9], addr, hashes, hostname, path))
  }

  lemma StampLayout(hostname: seq<byte>, path: seq<byte>)
    ensures var b := StampBytes(hostname, path);
            |b| >= 9 && b[0] == 0x02 && b[1..9] == NO_PROPS && b[9..] == LP([]) + (LP([]) + (LP(hostname) + LP(path)))
  {
    var tail := LP([]) + (LP([]) + (LP(hostname) + LP(path)));
    assert StampBytes(hostname, path) == [0x02] + NO_PROPS + tail;
  }

  lemma NoHashes(tail: seq<byte>)
    ensures ReadVLP(LP([]) + tail) == Some(([[]], tail))
  {
    var s := LP([]) + tail;
    assert s[0] == 0 && s[1..1] == [] && s[1..] == tail;
  }

  /** The stamp decodes back to the host name and path it was built from, with no properties, no
      address and no certificate hash, exactly when both fit in a one-byte length. */
  lemma StampRoundTrip(hostname: seq<byte>, path: seq<byte>)
    ensures ReadStamp(PREFIX + Encode(StampBytes(hostname, path)))
         == Some(Stamp(NO_PROPS, [], [[]], hostname, path))
       <==> |hostname| < 256 && |path| < 256
  {
    hide Encode, Decode, LP, ReadLP, ReadVLP, StampBytes;
    var b := StampBytes(hostname, path);
    DecodeEncode(b);
    var text := PREFIX + Encode(b);
    assert PREFIX <= text && text[|PREFIX|..] == Encode(b);
    StampLayout(hostname, path);
    var tail := LP(hostname) + LP(path);
    ReadLPExact([], LP([]) + tail);
    NoHashes(tail);
    ReadLPExact(hostname, LP(path));
    ReadLPExact(path, []);
    assert LP(path) + [] == LP(path);
  }

  /** Any host name of 256 bytes, with the default path: its stamp decodes to something else. */
  lemma LongHostMisread(host: seq<byte>)
    requires |host| == 256
    ensures PathOf(URL("https", host, [])) == DNS_QUERY
    ensures ReadStamp(PREFIX + Encode(StampBytes(host, DNS_QUERY))) != Some(Stamp(NO_PROPS, [], [[]], host, DNS_QUERY))
  {
    hide ReadStamp, Encode, StampBytes;
    StampRoundTrip(host, DNS_QUERY);
  }

  // ----- texts and bytes as others write them

  /** Examples of section 10 of RFC 4648, without the padding, and one with the two characters by which
      base64url differs from base64. */
  lemma EncodeExamples()
    ensures Encode(Ascii("f")) == "Zg" && Encode(Ascii("fo")) == "Zm8" && Encode(Ascii("foo")) == "Zm9v"
    ensures Encode([0xfb, 0xff]) == "-_8"
  {
    assert Encode([0x66, 0x6f, 0x6f]) == "Zm9v" + Encode([0x66, 0x6f, 0x6f][3..]);
  }

  /** The bytes of a short stamp: protocol, properties, no address, no hash, the host "h" and the path "/p". */
  lemma StampExample()
    ensures StampBytes(Ascii("h"), Ascii("/p")) == [2, 0, 0, 0, 0, 0, 0, 0, 0, 0, 0, 1, 104, 2, 47, 112]
  {
  }
}
