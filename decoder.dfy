/** The decoder of the report reader (analyze.py `_read_html_robust`):
    chooses a text encoding for the bytes of a report from its byte-order
    mark (section 3.2 of RFC 2781 for UTF-16, section 6 of RFC 3629 for
    UTF-8) or, without one, from the share of zero bytes, then removes every
    NUL character from the decoded text.

    Decoding bytes into characters is Python's codec library; here it is the
    parameter `decode`, a function from a codec and a byte string to the
    text the codec yields with `errors="ignore"`. */
module Decoder {
  import opened Basics

  type byte = bv8

  /** The three codecs the reader can choose. */
  datatype Codec = Utf16Le | Utf16Be | Utf8

  /** The decoding the reader asks for: a codec and the bytes it is given. */
  datatype Plan = Plan(codec: Codec, payload: seq<byte>)

  /** `raw.count(b"\x00")`. */
  function CountZeros(raw: seq<byte>): (n: nat)
    ensures n <= |raw|
  {
    if raw == [] then 0 else (if raw[0] == 0 then 1 else 0) + CountZeros(raw[1..])
  }

  /** `max(1, len(raw))`, the denominator of the zero-byte ratio. */
  function Denominator(raw: seq<byte>): nat
  {
    if |raw| < 1 then 1 else |raw|
  }

  /** `nul_ratio > 0.05`, stated in integers: more than one byte in twenty
      is zero. */
  predicate NulHeavy(raw: seq<byte>)
  {
    20 * CountZeros(raw) > Denominator(raw)
  }

  predicate StartsWithUtf16LeMark(raw: seq<byte>)
  {
    |raw| >= 2 && raw[0] == 0xFF && raw[1] == 0xFE
  }

  predicate StartsWithUtf16BeMark(raw: seq<byte>)
  {
    |raw| >= 2 && raw[0] == 0xFE && raw[1] == 0xFF
  }

  predicate StartsWithUtf8Mark(raw: seq<byte>)
  {
    |raw| >= 3 && raw[0] == 0xEF && raw[1] == 0xBB && raw[2] == 0xBF
  }

  /** The codec chosen for a non-empty buffer (analyze.py:165-176). The
      UTF-16 codecs are given the whole buffer, so their mark comes out as
      U+FEFF at the head of the text; "utf-8-sig" drops its mark. */
  function Select(raw: seq<byte>): Plan
  {
    if StartsWithUtf16LeMark(raw) then Plan(Utf16Le, raw)
    else if StartsWithUtf16BeMark(raw) then Plan(Utf16Be, raw)
    else if StartsWithUtf8Mark(raw) then Plan(Utf8, raw[3..])
    else if NulHeavy(raw) then Plan(Utf16Le, raw)
    else Plan(Utf8, raw)
  }

  /** `txt.replace("\x00", "")`. */
  function StripNul(s: string): (r: string)
    ensures multiset(r) == multiset(s)['\0' := 0]
    ensures '\0' !in s ==> r == s
  {
    if s == [] then []
    else if s[0] == '\0' then
      assert s == [s[0]] + s[1..];
      StripNul(s[1..])
    else
      assert s == [s[0]] + s[1..];
      [s[0]] + StripNul(s[1..])
  }

  /** The text `_read_html_robust` returns for the bytes `raw`. */
  function Decoded(raw: seq<byte>, decode: (Codec, seq<byte>) -> string): (txt: string)
    ensures '\0' !in txt
    ensures raw == [] ==> txt == []
  {
    if raw == [] then []
    else
      var p := Select(raw);
      var t := StripNul(decode(p.codec, p.payload));
      assert multiset(t)['\0'] == 0;
      t
  }

  /** `_read_html_robust` (analyze.py:158-178), once the file's bytes are
      read: `txt` is assigned in one branch per codec. */
  method ReadHtmlRobust(raw: seq<byte>, decode: (Codec, seq<byte>) -> string) returns (txt: string)
    ensures txt == Decoded(raw, decode)
    ensures '\0' !in txt
    ensures raw == [] ==> txt == []
  {
    if raw == [] {
      return "";
    }
    if StartsWithUtf16LeMark(raw) {
      txt := decode(Utf16Le, raw);
    } else if StartsWithUtf16BeMark(raw) {
      txt := decode(Utf16Be, raw);
    } else if StartsWithUtf8Mark(raw) {
      txt := decode(Utf8, raw[3..]);
    } else {
      var zeros := CountZeros(raw);
      var len := if |raw| < 1 then 1 else |raw|;
      if 20 * zeros > len {
        txt := decode(Utf16Le, raw);
      } else {
        txt := decode(Utf8, raw);
      }
    }
    txt := StripNul(txt);
  }

  /** The integer test is the source's ratio test: for any count of zeros
      and any positive denominator, `zeros / d > 0.05` exactly when
      `20 * zeros > d`. */
  lemma NulRatioTest(zeros: nat, d: nat)
    requires d >= 1
    ensures (zeros as real / d as real > 0.05) <==> 20 * zeros > d
  {
    DivAbove(zeros as real, d as real, 0.05);
    assert (20 * zeros) as real == 20.0 * zeros as real;
  }

  /** A quotient exceeds `c` exactly when the dividend exceeds `c` times the
      positive divisor. */
  lemma DivAbove(a: real, b: real, c: real)
    requires b > 0.0
    ensures a / b > c <==> a > c * b
  {
    var q := a / b;
    assert q * b == a;
    SignOfProduct(q - c, b);
    assert (q - c) * b == q * b - c * b;
  }

  /** A byte-order mark decides the codec whatever the bytes after it are:
      a marked UTF-16BE or UTF-8 buffer full of zero bytes is not read as
      UTF-16LE. */
  lemma MarkBeatsZeroRatio(raw: seq<byte>)
    requires StartsWithUtf16BeMark(raw) || StartsWithUtf8Mark(raw)
    ensures Select(raw).codec != Utf16Le
    ensures StartsWithUtf8Mark(raw) ==> Select(raw) == Plan(Utf8, raw[3..])
  {
  }

  /** Zero bytes in every odd position: the layout of ASCII text encoded as
      UTF-16LE. */
  predicate ZeroHighBytes(raw: seq<byte>)
  {
    |raw| % 2 == 0 && forall i :: 0 <= i < |raw| / 2 ==> raw[2 * i + 1] == 0
  }

  lemma {:induction false} ZeroHighBytesCount(raw: seq<byte>)
    requires ZeroHighBytes(raw)
    ensures 2 * CountZeros(raw) >= |raw|
    decreases |raw|
  {
    if raw != [] {
      var rest := raw[2..];
      assert ZeroHighBytes(rest) by {
        forall i | 0 <= i < |rest| / 2 ensures rest[2 * i + 1] == 0 {
          assert rest[2 * i + 1] == raw[2 * (i + 1) + 1];
        }
      }
      ZeroHighBytesCount(rest);
      assert raw[2 * 0 + 1] == 0;
      assert raw[1..][1..] == rest;
    }
  }

  /** UTF-16LE text of ASCII characters written without a byte-order mark
      is recognised as UTF-16LE by its zero bytes. */
  lemma UnmarkedUtf16Detected(raw: seq<byte>)
    requires raw != [] && ZeroHighBytes(raw)
    requires !StartsWithUtf16BeMark(raw) && !StartsWithUtf8Mark(raw)
    ensures Select(raw) == Plan(Utf16Le, raw)
  {
    ZeroHighBytesCount(raw);
  }

  /** A buffer with no zero byte and no mark is read as UTF-8. */
  lemma {:induction false} NoZerosMeansUtf8(raw: seq<byte>)
    requires forall i :: 0 <= i < |raw| ==> raw[i] != 0
    requires !StartsWithUtf16LeMark(raw) && !StartsWithUtf16BeMark(raw) && !StartsWithUtf8Mark(raw)
    ensures Select(raw) == Plan(Utf8, raw)
  {
    NoZerosCount(raw);
  }

  lemma {:induction false} NoZerosCount(raw: seq<byte>)
    requires forall i :: 0 <= i < |raw| ==> raw[i] != 0
    ensures CountZeros(raw) == 0
    decreases |raw|
  {
    if raw != [] {
      NoZerosCount(raw[1..]);
    }
  }
}
