/** The signed connection URL of the speech-recognition service: the seven
    authentication parameters, the canonical string that is signed (blank
    values dropped, sorted, percent-encoded, joined with '&'), and the final
    query string that carries the signature.

    Percent-encoding follows Python's urllib.parse: `quote(s, safe='')` keeps
    only the unreserved characters of section 2.3 of RFC 3986 and writes every
    other UTF-8 byte as `%XX` with upper-case hex digits; `quote_plus`, which
    urlencode uses, additionally writes a space as '+'. */
module AsrAuth {
  import opened Common

  /** A parameter as it sits in the dict: a key and a value that may be None. */
  type Param = (string, Option<string>)

  const BaseUrl: string := "wss://office-api-ast-dx.iflyaisol.com/ast/communicate/v1"

  const SignatureKey: string := "signature"

  /** The parameters in dict insertion order: the two credentials, a fresh
      uuid4 hex, the +0800 timestamp, then the fixed audio parameters. */
  function AuthParams(accessKeyId: Option<string>, appId: Option<string>, uuid: string, utc: string): (r: seq<Param>)
    ensures |r| == 7
  {
    [("accessKeyId", accessKeyId), ("appId", appId), ("uuid", Some(uuid)), ("utc", Some(utc)),
     ("audio_encode", Some("pcm_s16le")), ("lang", Some("autodialect")), ("samplerate", Some("16000"))]
  }

  ghost predicate DistinctKeys(ps: seq<Param>)
  {
    forall i, j :: 0 <= i < j < |ps| ==> ps[i].0 != ps[j].0
  }

  // -----------------------------------------------------------------------
  // Filtering and sorting
  // -----------------------------------------------------------------------

  /** `v is not None and str(v).strip() != ""`. */
  predicate Signable(p: Param)
  {
    p.1.Some? && !IsPyBlank(p.1.value)
  }

  /** Python's `<` on the (key, value) tuples being sorted. */
  predicate PairLess(a: Param, b: Param)
  {
    LexLess(a.0, b.0) || (a.0 == b.0 && LexLess(a.1.GetOr(""), b.1.GetOr("")))
  }

  /** Keys strictly ascending: sorted, and no key twice. */
  ghost predicate KeysAscending(ps: seq<Param>)
  {
    forall i, j :: 0 <= i < j < |ps| ==> LexLess(ps[i].0, ps[j].0)
  }

  function Insert(s: seq<Param>, x: Param): seq<Param>
  {
    if s == [] then [x] else if PairLess(s[0], x) then [s[0]] + Insert(s[1..], x) else [x] + s
  }

  /** `sorted(...)`, as an insertion sort. */
  function Sort(s: seq<Param>): seq<Param>
  {
    if s == [] then [] else Insert(Sort(s[1..]), s[0])
  }

  /** The parameters that enter the signature, in the order they are signed. */
  function SignedParams(ps: seq<Param>): seq<Param>
  {
    Sort(Filter(ps, Signable))
  }

  lemma {:induction false} InsertPermutes(s: seq<Param>, x: Param)
    ensures multiset(Insert(s, x)) == multiset(s) + multiset{x}
  {
    if s != [] && PairLess(s[0], x) {
      InsertPermutes(s[1..], x);
      assert s == [s[0]] + s[1..];
    }
  }

  lemma {:induction false} SortPermutes(s: seq<Param>)
    ensures multiset(Sort(s)) == multiset(s)
  {
    if s != [] {
      SortPermutes(s[1..]);
      InsertPermutes(Sort(s[1..]), s[0]);
      assert s == [s[0]] + s[1..];
    }
  }

  lemma {:induction false} InsertAscending(s: seq<Param>, x: Param)
    requires KeysAscending(s)
    requires forall i :: 0 <= i < |s| ==> s[i].0 != x.0
    ensures KeysAscending(Insert(s, x))
  {
    if s != [] {
      if PairLess(s[0], x) {
        assert LexLess(s[0].0, x.0);
        InsertAscending(s[1..], x);
        InsertPermutes(s[1..], x);
        var r := Insert(s[1..], x);
        forall j | 0 <= j < |r| ensures LexLess(s[0].0, r[j].0) {
          assert r[j] in multiset(s[1..]) + multiset{x};
          if r[j] != x {
            var k :| 0 <= k < |s[1..]| && s[1..][k] == r[j];
            assert s[k + 1] == r[j];
          }
        }
      } else {
        LexLessTotal(s[0].0, x.0);
        forall j | 0 < j < |s| ensures LexLess(x.0, s[j].0) {
          LexLessTransitive(x.0, s[0].0, s[j].0);
        }
      }
    }
  }

  lemma {:induction false} SortAscending(s: seq<Param>)
    requires DistinctKeys(s)
    ensures KeysAscending(Sort(s))
  {
    if s != [] {
      assert DistinctKeys(s[1..]) by {
        forall i, j | 0 <= i < j < |s[1..]| ensures s[1..][i].0 != s[1..][j].0 {
          assert s[1..][i] == s[i + 1] && s[1..][j] == s[j + 1];
        }
      }
      SortAscending(s[1..]);
      SortPermutes(s[1..]);
      var t := Sort(s[1..]);
      forall i | 0 <= i < |t| ensures t[i].0 != s[0].0 {
        assert t[i] in multiset(s[1..]);
        var k :| 0 <= k < |s[1..]| && s[1..][k] == t[i];
        assert s[k + 1] == t[i];
      }
      InsertAscending(t, s[0]);
    }
  }

  lemma {:induction false} FilterDistinctKeys(s: seq<Param>, p: Param -> bool)
    requires DistinctKeys(s)
    ensures DistinctKeys(Filter(s, p))
  {
    if s != [] {
      assert DistinctKeys(s[1..]) by {
        forall i, j | 0 <= i < j < |s[1..]| ensures s[1..][i].0 != s[1..][j].0 {
          assert s[1..][i] == s[i + 1] && s[1..][j] == s[j + 1];
        }
      }
      FilterDistinctKeys(s[1..], p);
      var t := Filter(s[1..], p);
      forall i | 0 <= i < |t| ensures t[i].0 != s[0].0 {
        var k :| 0 <= k < |s[1..]| && s[1..][k] == t[i];
        assert s[k + 1] == t[i];
      }
    }
  }

  /** The signed parameters are exactly the parameters whose value is present
      and not blank after stripping, each once, in ascending key order. */
  lemma {:induction false} SignedParamsSpec(ps: seq<Param>)
    requires DistinctKeys(ps)
    ensures var r := SignedParams(ps);
            && multiset(r) == multiset(Filter(ps, Signable))
            && (forall i :: 0 <= i < |r| ==> Signable(r[i]) && r[i] in ps)
            && (forall i :: 0 <= i < |ps| && Signable(ps[i]) ==> ps[i] in r)
            && (forall i, j :: 0 <= i < j < |r| ==> LexLess(r[i].0, r[j].0))
  {
    var f := Filter(ps, Signable);
    SortPermutes(f);
    FilterDistinctKeys(ps, Signable);
    SortAscending(f);
    var r := Sort(f);
    forall i | 0 <= i < |r| ensures Signable(r[i]) && r[i] in ps {
      assert r[i] in multiset(f);
    }
    forall i | 0 <= i < |ps| && Signable(ps[i]) ensures ps[i] in r {
      assert ps[i] in f;
      assert ps[i] in multiset(r);
    }
  }

  /** The authentication parameters have distinct keys, none of them
      "signature"; the three fixed audio values always enter the signature,
      the uuid and the timestamp exactly when they are not blank, and the two
      credentials exactly when present and not blank. */
  lemma AuthParamsSpec(accessKeyId: Option<string>, appId: Option<string>, uuid: string, utc: string)
    ensures DistinctKeys(AuthParams(accessKeyId, appId, uuid, utc))
    ensures forall i :: 0 <= i < 7 ==> AuthParams(accessKeyId, appId, uuid, utc)[i].0 != SignatureKey
    ensures forall i :: 4 <= i < 7 ==> Signable(AuthParams(accessKeyId, appId, uuid, utc)[i])
    ensures Signable(AuthParams(accessKeyId, appId, uuid, utc)[0]) <==> accessKeyId.Some? && !IsPyBlank(accessKeyId.value)
    ensures Signable(AuthParams(accessKeyId, appId, uuid, utc)[1]) <==> appId.Some? && !IsPyBlank(appId.value)
    ensures Signable(AuthParams(accessKeyId, appId, uuid, utc)[2]) <==> !IsPyBlank(uuid)
    ensures Signable(AuthParams(accessKeyId, appId, uuid, utc)[3]) <==> !IsPyBlank(utc)
  {
    var ps := AuthParams(accessKeyId, appId, uuid, utc);
    assert "accessKeyId"[1] != "appId"[1] && "audio_encode"[1] != "appId"[1];
    assert "accessKeyId"[1] != "audio_encode"[1];
    assert "uuid"[1] != "utc"[1];
    assert !IsPyWhitespace("pcm_s16le"[0]) && !IsPyWhitespace("autodialect"[0]) && !IsPyWhitespace("16000"[0]);
    assert ps[0].0 == "accessKeyId" && ps[1].0 == "appId" && ps[2].0 == "uuid" && ps[3].0 == "utc";
    assert ps[4].0 == "audio_encode" && ps[5].0 == "lang" && ps[6].0 == "samplerate";
    assert "accessKeyId"[0] == 'a' && "appId"[0] == 'a' && "audio_encode"[0] == 'a';
    assert "uuid"[0] == 'u' && "utc"[0] == 'u' && "lang"[0] == 'l' && "samplerate"[0] == 's';
    assert SignatureKey[0] == 's' && "samplerate"[1] != SignatureKey[1];
  }

  /** What the service generates is never blank: `uuid4().hex` is 32
      lower-case hex digits and the `%Y-...` timestamp starts with a digit of
      the year, so all five generated and fixed values enter the signature. */
  lemma GeneratedValuesSigned(accessKeyId: Option<string>, appId: Option<string>, uuid: string, utc: string)
    requires |uuid| == 32 && forall i :: 0 <= i < |uuid| ==> ('0' <= uuid[i] <= '9' || 'a' <= uuid[i] <= 'f')
    requires utc != [] && '0' <= utc[0] <= '9'
    ensures forall i :: 2 <= i < 7 ==> Signable(AuthParams(accessKeyId, appId, uuid, utc)[i])
  {
    AuthParamsSpec(accessKeyId, appId, uuid, utc);
    TrimNonEmpty(uuid, IsPyWhitespace);
    TrimNonEmpty(utc, IsPyWhitespace);
  }

  // -----------------------------------------------------------------------
  // UTF-8 and percent-encoding
  // -----------------------------------------------------------------------

  /** The UTF-8 encoding of one code point. */
  function Utf8Char(c: char): (r: seq<byte>)
    ensures 1 <= |r| <= 4
  {
    var n := c as int;
    if n < 0x80 then [n as byte]
    else if n < 0x800 then [(0xC0 + n / 64) as byte, (0x80 + n % 64) as byte]
    else if n < 0x10000 then [(0xE0 + n / 4096) as byte, (0x80 + (n / 64) % 64) as byte, (0x80 + n % 64) as byte]
    else [(0xF0 + n / 262144) as byte, (0x80 + (n / 4096) % 64) as byte, (0x80 + (n / 64) % 64) as byte, (0x80 + n % 64) as byte]
  }

  /** `s.encode("utf-8")`. */
  function Utf8(s: string): seq<byte>
  {
    if s == [] then [] else Utf8Char(s[0]) + Utf8(s[1..])
  }

  /** How many bytes a sequence starting with lead byte `b` occupies. */
  function Utf8Length(b: byte): nat
  {
    if b < 0x80 then 1 else if b < 0xE0 then 2 else if b < 0xF0 then 3 else 4
  }

  function ToChar(n: int): char
  {
    if 0 <= n < 0xD800 || 0xE000 <= n < 0x110000 then n as char else '\U{FFFD}'
  }

  function Continuation(b: byte): int
  {
    b as int - 0x80
  }

  /** Decodes UTF-8; a truncated sequence at the end is dropped. */
  function Utf8Decode(bs: seq<byte>): string
    decreases |bs|
  {
    if bs == [] then []
    else
      var len := Utf8Length(bs[0]);
      if |bs| < len then []
      else
        var n :=
          if len == 1 then bs[0] as int
          else if len == 2 then (bs[0] as int - 0xC0) * 64 + Continuation(bs[1])
          else if len == 3 then (bs[0] as int - 0xE0) * 4096 + Continuation(bs[1]) * 64 + Continuation(bs[2])
          else (bs[0] as int - 0xF0) * 262144 + Continuation(bs[1]) * 4096 + Continuation(bs[2]) * 64 + Continuation(bs[3]);
        [ToChar(n)] + Utf8Decode(bs[len..])
  }

  lemma Utf8Decodes1(c: char, rest: seq<byte>)
    requires c as int < 0x80
    ensures Utf8Decode(Utf8Char(c) + rest) == [c] + Utf8Decode(rest)
  {
    var b0 := c as int as byte;
    var bs := [b0] + rest;
    assert Utf8Char(c) == [b0];
    assert bs[0] == b0 && bs[1..] == rest;
    assert Utf8Length(b0) == 1;
  }

  lemma Utf8Decodes2(c: char, rest: seq<byte>)
    requires 0x80 <= c as int < 0x800
    ensures Utf8Decode(Utf8Char(c) + rest) == [c] + Utf8Decode(rest)
  {
    var n := c as int;
    var b0, b1 := (0xC0 + n / 64) as byte, (0x80 + n % 64) as byte;
    var bs := [b0, b1] + rest;
    assert Utf8Char(c) == [b0, b1];
    assert bs[0] == b0 && bs[1] == b1 && bs[2..] == rest;
    assert Utf8Length(b0) == 2;
    assert n == (n / 64) * 64 + n % 64;
    assert (b0 as int - 0xC0) * 64 + Continuation(b1) == n;
  }

  lemma Utf8Decodes3(c: char, rest: seq<byte>)
    requires 0x800 <= c as int < 0x10000
    ensures Utf8Decode(Utf8Char(c) + rest) == [c] + Utf8Decode(rest)
  {
    var n := c as int;
    var b0, b1, b2 := (0xE0 + n / 4096) as byte, (0x80 + (n / 64) % 64) as byte, (0x80 + n % 64) as byte;
    var bs := [b0, b1, b2] + rest;
    assert Utf8Char(c) == [b0, b1, b2];
    assert bs[0] == b0 && bs[1] == b1 && bs[2] == b2 && bs[3..] == rest;
    assert Utf8Length(b0) == 3;
    assert n / 64 == (n / 4096) * 64 + (n / 64) % 64;
    assert n == (n / 4096) * 4096 + ((n / 64) % 64) * 64 + n % 64;
    assert (b0 as int - 0xE0) * 4096 + Continuation(b1) * 64 + Continuation(b2) == n;
  }

  lemma Utf8Decodes4(c: char, rest: seq<byte>)
    requires 0x10000 <= c as int
    ensures Utf8Decode(Utf8Char(c) + rest) == [c] + Utf8Decode(rest)
  {
    var n := c as int;
    var b0, b1 := (0xF0 + n / 262144) as byte, (0x80 + (n / 4096) % 64) as byte;
    var b2, b3 := (0x80 + (n / 64) % 64) as byte, (0x80 + n % 64) as byte;
    var bs := [b0, b1, b2, b3] + rest;
    assert Utf8Char(c) == [b0, b1, b2, b3];
    assert bs[0] == b0 && bs[1] == b1 && bs[2] == b2 && bs[3] == b3 && bs[4..] == rest;
    assert Utf8Length(b0) == 4;
    assert n / 4096 == (n / 262144) * 64 + (n / 4096) % 64;
    assert n / 64 == (n / 4096) * 64 + (n / 64) % 64;
    assert n == (n / 262144) * 262144 + ((n / 4096) % 64) * 4096 + ((n / 64) % 64) * 64 + n % 64;
    assert (b0 as int - 0xF0) * 262144 + Continuation(b1) * 4096 + Continuation(b2) * 64 + Continuation(b3) == n;
  }

  lemma Utf8CharDecodes(c: char, rest: seq<byte>)
    ensures Utf8Decode(Utf8Char(c) + rest) == [c] + Utf8Decode(rest)
  {
    var n := c as int;
    if n < 0x80 {
      Utf8Decodes1(c, rest);
    } else if n < 0x800 {
      Utf8Decodes2(c, rest);
    } else if n < 0x10000 {
      Utf8Decodes3(c, rest);
    } else {
      Utf8Decodes4(c, rest);
    }
  }

  /** Decoding undoes the UTF-8 encoding. */
  lemma {:induction false} Utf8RoundTrip(s: string)
    ensures Utf8Decode(Utf8(s)) == s
  {
    if s != [] {
      Utf8CharDecodes(s[0], Utf8(s[1..]));
      Utf8RoundTrip(s[1..]);
    }
  }

  /** The characters `quote` never escapes: A-Z, a-z, 0-9 and `_.-~`. */
  predicate IsUnreserved(c: char)
  {
    ('A' <= c <= 'Z') || ('a' <= c <= 'z') || ('0' <= c <= '9') || c == '_' || c == '.' || c == '-' || c == '~'
  }

  /** The upper-case hexadecimal digit of a value below 16. */
  function HexDigit(k: int): (c: char)
    requires 0 <= k < 16
    ensures IsHexDigit(c) && HexValue(c) == k
  {
    if k < 10 then ('0' as int + k) as char else ('A' as int + k - 10) as char
  }

  predicate IsHexDigit(c: char)
  {
    ('0' <= c <= '9') || ('A' <= c <= 'F')
  }

  function HexValue(c: char): int
  {
    if '0' <= c <= '9' then c as int - '0' as int else c as int - 'A' as int + 10
  }

  function QuoteByte(b: byte, plus: bool): (r: string)
  {
    if plus && b == 0x20 then "+"
    else if IsUnreserved(b as int as char) then [b as int as char]
    else ['%', HexDigit(b as int / 16), HexDigit(b as int % 16)]
  }

  function QuoteBytes(bs: seq<byte>, plus: bool): string
  {
    if bs == [] then "" else QuoteByte(bs[0], plus) + QuoteBytes(bs[1..], plus)
  }

  /** `urllib.parse.quote(s, safe='')`. */
  function Quote(s: string): string
  {
    QuoteBytes(Utf8(s), false)
  }

  /** `urllib.parse.quote_plus(s, safe='')`, urlencode's default quoting. */
  function QuotePlus(s: string): string
  {
    QuoteBytes(Utf8(s), true)
  }

  /** Undoes `%XX` escapes (and, when `plus`, '+' for a space). */
  function PercentDecode(s: string, plus: bool): seq<byte>
  {
    if s == [] then []
    else if s[0] == '%' && |s| >= 3 && IsHexDigit(s[1]) && IsHexDigit(s[2]) then
      [(HexValue(s[1]) * 16 + HexValue(s[2])) as byte] + PercentDecode(s[3..], plus)
    else if plus && s[0] == '+' then [0x20 as byte] + PercentDecode(s[1..], plus)
    else [(if s[0] as int < 256 then s[0] as int else 0) as byte] + PercentDecode(s[1..], plus)
  }

  /** A quoted string uses only unreserved characters, '%' and upper-case hex
      digits (and '+' under quote_plus): never '&', '=' or a space. */
  ghost predicate QuotedAlphabet(s: string, plus: bool)
  {
    forall i :: 0 <= i < |s| ==> IsUnreserved(s[i]) || s[i] == '%' || (plus && s[i] == '+')
  }

  lemma {:induction false} QuoteBytesAlphabet(bs: seq<byte>, plus: bool)
    ensures QuotedAlphabet(QuoteBytes(bs, plus), plus)
  {
    if bs != [] {
      QuoteBytesAlphabet(bs[1..], plus);
      var h, t := QuoteByte(bs[0], plus), QuoteBytes(bs[1..], plus);
      assert QuoteBytes(bs, plus) == h + t;
      assert QuotedAlphabet(h, plus);
      forall i | 0 <= i < |h + t|
        ensures IsUnreserved((h + t)[i]) || (h + t)[i] == '%' || (plus && (h + t)[i] == '+')
      {
        if i >= |h| {
          assert (h + t)[i] == t[i - |h|];
        }
      }
    }
  }

  lemma QuoteByteDecodes(b: byte, plus: bool, t: string)
    ensures PercentDecode(QuoteByte(b, plus) + t, plus) == [b] + PercentDecode(t, plus)
  {
    var s := QuoteByte(b, plus) + t;
    if plus && b == 0x20 {
      assert s[0] == '+' && s[1..] == t;
    } else if IsUnreserved(b as int as char) {
      assert s[0] == b as int as char && s[1..] == t;
    } else {
      EscapeDecodes(b, plus, t);
    }
  }

  lemma EscapeDecodes(b: byte, plus: bool, t: string)
    ensures PercentDecode(['%', HexDigit(b as int / 16), HexDigit(b as int % 16)] + t, plus) == [b] + PercentDecode(t, plus)
  {
    var hi, lo := HexDigit(b as int / 16), HexDigit(b as int % 16);
    var s := ['%', hi, lo] + t;
    assert s[0] == '%' && s[1] == hi && s[2] == lo && s[3..] == t;
    assert (HexValue(hi) * 16 + HexValue(lo)) as byte == b;
  }

  /** Percent-decoding undoes the quoting of any byte string. */
  lemma {:induction false} QuoteBytesRoundTrip(bs: seq<byte>, plus: bool)
    ensures PercentDecode(QuoteBytes(bs, plus), plus) == bs
  {
    if bs != [] {
      QuoteBytesRoundTrip(bs[1..], plus);
      QuoteByteDecodes(bs[0], plus, QuoteBytes(bs[1..], plus));
    }
  }

  /** Quoting is injective: the quoted text determines the original string. */
  lemma QuoteRoundTrip(s: string, plus: bool)
    ensures Utf8Decode(PercentDecode(QuoteBytes(Utf8(s), plus), plus)) == s
    ensures QuotedAlphabet(QuoteBytes(Utf8(s), plus), plus)
  {
    QuoteBytesRoundTrip(Utf8(s), plus);
    Utf8RoundTrip(s);
    QuoteBytesAlphabet(Utf8(s), plus);
  }

  /** A quoted string holds neither separator of a query, and decodes back. */
  lemma QuoteSeparatorFree(s: string, plus: bool)
    ensures var q := QuoteBytes(Utf8(s), plus);
            '&' !in q && '=' !in q && Utf8Decode(PercentDecode(q, plus)) == s
  {
    QuoteRoundTrip(s, plus);
    var q := QuoteBytes(Utf8(s), plus);
    forall i | 0 <= i < |q| ensures q[i] != '&' && q[i] != '=' {
      assert IsUnreserved(q[i]) || q[i] == '%' || (plus && q[i] == '+');
    }
  }

  lemma {:induction false} UnreservedBytes(s: string)
    requires forall i :: 0 <= i < |s| ==> IsUnreserved(s[i])
    ensures QuoteBytes(Utf8(s), false) == s
  {
    if s != [] {
      UnreservedBytes(s[1..]);
      assert Utf8(s) == Utf8Char(s[0]) + Utf8(s[1..]);
      assert Utf8(s) == [s[0] as int as byte] + Utf8(s[1..]);
      assert Utf8(s)[1..] == Utf8(s[1..]);
    }
  }

  /** Strings of unreserved characters are left as they are, such as every key. */
  lemma QuoteUnreserved(s: string)
    requires forall i :: 0 <= i < |s| ==> IsUnreserved(s[i])
    ensures Quote(s) == s
  {
    UnreservedBytes(s);
  }

  // -----------------------------------------------------------------------
  // The base string and the URL
  // -----------------------------------------------------------------------

  /** `quote(k)=quote(v)`. */
  function Entry(p: Param): string
  {
    Quote(p.0) + "=" + Quote(p.1.GetOr(""))
  }

  function Entries(ps: seq<Param>): (r: seq<string>)
    ensures |r| == |ps|
    ensures forall i :: 0 <= i < |ps| ==> r[i] == Entry(ps[i])
  {
    seq(|ps|, i requires 0 <= i < |ps| => Entry(ps[i]))
  }

  /** The string the HMAC-SHA1 signature is computed over. */
  function BaseString(ps: seq<Param>): string
  {
    Join(Entries(SignedParams(ps)), '&')
  }

  /** Reads one `k=v` entry back. */
  function ParseEntry(e: string): (string, string)
  {
    var kv := Split(e, '=');
    (Utf8Decode(PercentDecode(kv[0], false)), if |kv| > 1 then Utf8Decode(PercentDecode(kv[1], false)) else "")
  }

  /** Reads a base string back into its key-value pairs. */
  function ParseBaseString(s: string): seq<(string, string)>
  {
    if s == "" then []
    else
      var es := Split(s, '&');
      seq(|es|, i requires 0 <= i < |es| => ParseEntry(es[i]))
  }

  lemma EntryParses(p: Param)
    ensures '&' !in Entry(p)
    ensures Entry(p) != ""
    ensures ParseEntry(Entry(p)) == (p.0, p.1.GetOr(""))
  {
    var k, v := Quote(p.0), Quote(p.1.GetOr(""));
    QuoteSeparatorFree(p.0, false);
    QuoteSeparatorFree(p.1.GetOr(""), false);
    assert Join([k, v], '=') == k + "=" + v;
    SplitJoin([k, v], '=');
    assert (k + "=" + v)[|k|] == '=';
  }

  /** The base string is the signed parameters' entries joined by '&', and it
      can be read back: it determines the signed keys, their order and their
      values. */
  lemma BaseStringSpec(ps: seq<Param>)
    ensures Split(BaseString(ps), '&') == (if SignedParams(ps) == [] then [""] else Entries(SignedParams(ps)))
    ensures var sp := SignedParams(ps);
            var r := ParseBaseString(BaseString(ps));
            |r| == |sp| && forall i :: 0 <= i < |sp| ==> r[i] == (sp[i].0, sp[i].1.GetOr(""))
  {
    var sp := SignedParams(ps);
    var es := Entries(sp);
    forall i | 0 <= i < |es| ensures '&' !in es[i] && es[i] != "" && ParseEntry(es[i]) == (sp[i].0, sp[i].1.GetOr("")) {
      EntryParses(sp[i]);
    }
    if sp != [] {
      SplitJoin(es, '&');
      JoinNonEmpty(es, '&');
    }
  }

  lemma JoinNonEmpty(xs: seq<string>, sep: char)
    requires |xs| > 0 && xs[0] != ""
    ensures Join(xs, sep) != ""
  {
    if |xs| > 1 {
      assert Join(xs, sep)[0] == xs[0][0];
    }
  }

  /** `str(v)` for the values urlencode meets: a string, or None. */
  function PyStr(v: Option<string>): string
  {
    match v
    case Some(s) => s
    case None => "None"
  }

  function QueryEntry(p: Param): string
  {
    QuotePlus(p.0) + "=" + QuotePlus(PyStr(p.1))
  }

  /** `urllib.parse.urlencode(params)`. */
  function UrlEncode(ps: seq<Param>): string
  {
    Join(seq(|ps|, i requires 0 <= i < |ps| => QueryEntry(ps[i])), '&')
  }

  /** The dict after `auth_params["signature"] = ...`: the key is new, so it
      goes last. */
  function WithSignature(ps: seq<Param>, signature: string): seq<Param>
  {
    ps + [(SignatureKey, Some(signature))]
  }

  /** create_url. `sign` stands for Base64(HMAC-SHA1(api_secret, ·)). */
  function CreateUrl(accessKeyId: Option<string>, appId: Option<string>, uuid: string, utc: string,
                     sign: string -> string): string
  {
    var ps := AuthParams(accessKeyId, appId, uuid, utc);
    BaseUrl + "?" + UrlEncode(WithSignature(ps, sign(BaseString(ps))))
  }

  /** The query string splits back into one entry per parameter, in order. */
  lemma UrlEncodeSplits(ps: seq<Param>)
    requires |ps| > 0
    ensures |Split(UrlEncode(ps), '&')| == |ps|
    ensures forall i :: 0 <= i < |ps| ==> Split(UrlEncode(ps), '&')[i] == QueryEntry(ps[i])
  {
    var es := seq(|ps|, i requires 0 <= i < |ps| => QueryEntry(ps[i]));
    forall i | 0 <= i < |es| ensures '&' !in es[i] {
      QuoteSeparatorFree(ps[i].0, true);
      QuoteSeparatorFree(PyStr(ps[i].1), true);
    }
    SplitJoin(es, '&');
  }

  /** A key made of unreserved characters is written as it is. */
  lemma UnreservedKeyEntry(k: string, v: string)
    requires forall i :: 0 <= i < |k| ==> IsUnreserved(k[i])
    ensures QueryEntry((k, Some(v))) == k + "=" + QuotePlus(v)
  {
    QuoteUnreserved(k);
    NoSpaceQuotePlus(k);
  }

  /** The signature entry is written `signature=` followed by the quoted signature. */
  lemma SignatureEntry(signature: string)
    ensures QueryEntry((SignatureKey, Some(signature))) == SignatureKey + "=" + QuotePlus(signature)
  {
    assert forall i :: 0 <= i < |SignatureKey| ==> IsUnreserved(SignatureKey[i]);
    UnreservedKeyEntry(SignatureKey, signature);
  }

  /** The query of a parameter list with the signature added: one entry per
      parameter, in order, then the signature entry. */
  lemma SignedQuerySplits(ps: seq<Param>, signature: string)
    ensures var q := Split(UrlEncode(WithSignature(ps, signature)), '&');
            && |q| == |ps| + 1
            && (forall i :: 0 <= i < |ps| ==> q[i] == QueryEntry(ps[i]))
            && q[|ps|] == SignatureKey + "=" + QuotePlus(signature)
  {
    var wp := WithSignature(ps, signature);
    UrlEncodeSplits(wp);
    assert forall i :: 0 <= i < |ps| ==> wp[i] == ps[i];
    assert wp[|ps|] == (SignatureKey, Some(signature));
    SignatureEntry(signature);
  }

  /** The URL is the base URL, '?', and eight '&'-separated entries: all seven
      parameters in insertion order, including those left out of the
      signature (an absent one as the text "None"), then exactly one
      signature entry carrying the signature of the base string. */
  lemma CreateUrlSpec(accessKeyId: Option<string>, appId: Option<string>, uuid: string, utc: string,
                      sign: string -> string)
    ensures var ps := AuthParams(accessKeyId, appId, uuid, utc);
            var url := CreateUrl(accessKeyId, appId, uuid, utc, sign);
            var q := url[|BaseUrl| + 1..];
            && |url| > |BaseUrl| && url[..|BaseUrl| + 1] == BaseUrl + "?"
            && |Split(q, '&')| == 8
            && (forall i :: 0 <= i < 7 ==> Split(q, '&')[i] == QueryEntry(ps[i]))
            && Split(q, '&')[7] == SignatureKey + "=" + QuotePlus(sign(BaseString(ps)))
            && (forall i :: 0 <= i < 7 ==> ps[i].0 != SignatureKey)
  {
    var ps := AuthParams(accessKeyId, appId, uuid, utc);
    var sig := sign(BaseString(ps));
    SignedQuerySplits(ps, sig);
    var url := CreateUrl(accessKeyId, appId, uuid, utc, sign);
    assert url == BaseUrl + "?" + UrlEncode(WithSignature(ps, sig));
    assert url[|BaseUrl| + 1..] == UrlEncode(WithSignature(ps, sig));
    AuthParamsSpec(accessKeyId, appId, uuid, utc);
  }

  lemma {:induction false} NoSpaceBytes(bs: seq<byte>)
    requires forall i :: 0 <= i < |bs| ==> bs[i] != 0x20
    ensures QuoteBytes(bs, true) == QuoteBytes(bs, false)
  {
    if bs != [] {
      NoSpaceBytes(bs[1..]);
    }
  }

  lemma {:induction false} Utf8NoSpace(s: string)
    requires ' ' !in s
    ensures forall i :: 0 <= i < |Utf8(s)| ==> Utf8(s)[i] != 0x20
  {
    if s != [] {
      Utf8NoSpace(s[1..]);
      var h, t := Utf8Char(s[0]), Utf8(s[1..]);
      assert Utf8(s) == h + t;
      forall i | 0 <= i < |h| ensures h[i] != 0x20 {}
      forall i | 0 <= i < |h + t| ensures (h + t)[i] != 0x20 {
        if i >= |h| {
          assert (h + t)[i] == t[i - |h|];
        }
      }
    }
  }

  /** Without a space in the string quote_plus and quote agree. */
  lemma NoSpaceQuotePlus(s: string)
    requires ' ' !in s
    ensures QuotePlus(s) == Quote(s)
  {
    Utf8NoSpace(s);
    NoSpaceBytes(Utf8(s));
  }
}
