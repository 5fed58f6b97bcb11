/**
 * Base64 as the two ends of the preview payload use it.
 *
 * The producer is Python's `base64.b64encode`: the alphabet of section 4 of
 * RFC 4648 with `=` padding of the final quantum (section 4, cases (1)-(3)).
 * The consumer is the browser's `atob`, which runs the "forgiving-base64
 * decode" algorithm of the WHATWG Infra Standard: it drops ASCII whitespace,
 * drops one or two trailing `=` when the length is a multiple of four, rejects
 * a length of 1 modulo 4 and any character outside the alphabet, and does not
 * insist that the bits left over in a final partial quantum are zero.
 */
module Base64 {
  import opened Wrappers

  newtype byte = x: int | 0 <= x < 256

  /** A..Z, a..z, 0..9, '+', '/' */
  predicate InAlphabet(c: char) {
    'A' <= c <= 'Z' || 'a' <= c <= 'z' || '0' <= c <= '9' || c == '+' || c == '/'
  }

  predicate AllInAlphabet(s: string) {
    forall i :: 0 <= i < |s| ==> InAlphabet(s[i])
  }

  /** The character that encodes the six-bit value `v` (RFC 4648, Table 1). */
  function CharOf(v: int): (c: char)
    requires 0 <= v < 64
    ensures InAlphabet(c) && c != '='
  {
    if v < 26 then ('A' as int + v) as char
    else if v < 52 then ('a' as int + (v - 26)) as char
    else if v < 62 then ('0' as int + (v - 52)) as char
    else if v == 62 then '+'
    else '/'
  }

  /** The six-bit value an alphabet character stands for. */
  function ValueOf(c: char): (v: int)
    requires InAlphabet(c)
    ensures 0 <= v < 64
  {
    if 'A' <= c <= 'Z' then c as int - 'A' as int
    else if 'a' <= c <= 'z' then c as int - 'a' as int + 26
    else if '0' <= c <= '9' then c as int - '0' as int + 52
    else if c == '+' then 62
    else 63
  }

  lemma ValueOfCharOf(v: int)
    requires 0 <= v < 64
    ensures ValueOf(CharOf(v)) == v
  {
  }

  predicate AllSextets(v: seq<int>) {
    forall i :: 0 <= i < |v| ==> 0 <= v[i] < 64
  }

  /**
   * The six-bit groups of `b`, most significant bits first: four per three
   * bytes, then three for a final pair and two for a final single byte, the
   * last group filled up with zero bits (RFC 4648, section 4).
   */
  function Sextets(b: seq<byte>): (v: seq<int>)
    ensures AllSextets(v)
    ensures |v| % 4 == (if |b| % 3 == 0 then 0 else |b| % 3 + 1)
    ensures |v| == 0 <==> |b| == 0
    decreases |b|
  {
    if |b| >= 3 then
      var rest := Sextets(b[3..]);
      assert |b[3..]| % 3 == |b| % 3;
      Quantum(b[0], b[1], b[2]) + rest
    else if |b| == 2 then Pair(b[0], b[1])
    else if |b| == 1 then Single(b[0])
    else []
  }

  /** Three bytes: 24 bits, four groups. */
  function Quantum(b0: byte, b1: byte, b2: byte): (v: seq<int>)
    ensures |v| == 4 && AllSextets(v)
  {
    [b0 as int / 4, b0 as int % 4 * 16 + b1 as int / 16, b1 as int % 16 * 4 + b2 as int / 64, b2 as int % 64]
  }

  /** A final pair: 16 bits and two zero bits, three groups. */
  function Pair(b0: byte, b1: byte): (v: seq<int>)
    ensures |v| == 3 && AllSextets(v)
  {
    [b0 as int / 4, b0 as int % 4 * 16 + b1 as int / 16, b1 as int % 16 * 4]
  }

  /** A final single byte: 8 bits and four zero bits, two groups. */
  function Single(b0: byte): (v: seq<int>)
    ensures |v| == 2 && AllSextets(v)
  {
    [b0 as int / 4, b0 as int % 4 * 16]
  }

  /** The quanta of `b` without padding: each six-bit group as its alphabet character. */
  function EncodeCore(b: seq<byte>): (s: string)
    ensures AllInAlphabet(s) && forall i :: 0 <= i < |s| ==> s[i] != '='
    ensures |s| == |Sextets(b)|
  {
    var v := Sextets(b);
    seq(|v|, i requires 0 <= i < |v| => CharOf(v[i]))
  }

  /** `base64.b64encode(b)`: the quanta, then "==" after a final single byte or "=" after a final pair. */
  function Encode(b: seq<byte>): (s: string)
    ensures |s| % 4 == 0
    ensures |s| == 0 <==> |b| == 0
  {
    var core := EncodeCore(b);
    var pad := if |b| % 3 == 1 then "==" else if |b| % 3 == 2 then "=" else "";
    PaddedToFour(|core|, |pad|);
    core + pad
  }

  /** Two groups need two '=', three need one, four need none. */
  lemma PaddedToFour(n: nat, k: nat)
    requires (n % 4 == 0 && k == 0) || (n % 4 == 2 && k == 2) || (n % 4 == 3 && k == 1)
    ensures (n + k) % 4 == 0
  {
    var q := n / 4;
    assert n == 4 * q + n % 4;
    assert n + k == 4 * (q + (n % 4 + k) / 4);
  }

  /** The ASCII whitespace of the Infra Standard: tab, line feed, form feed, carriage return, space. */
  predicate IsAsciiWhitespace(c: char) {
    c == '\t' || c == '\n' || c == '\U{000C}' || c == '\r' || c == ' '
  }

  function RemoveAsciiWhitespace(s: string): (r: string)
    ensures forall i :: 0 <= i < |r| ==> !IsAsciiWhitespace(r[i])
  {
    if |s| == 0 then ""
    else if IsAsciiWhitespace(s[0]) then RemoveAsciiWhitespace(s[1..])
    else [s[0]] + RemoveAsciiWhitespace(s[1..])
  }

  lemma {:induction false} RemoveAsciiWhitespaceOfClean(s: string)
    requires forall i :: 0 <= i < |s| ==> !IsAsciiWhitespace(s[i])
    ensures RemoveAsciiWhitespace(s) == s
  {
    if |s| > 0 {
      RemoveAsciiWhitespaceOfClean(s[1..]);
    }
  }

  lemma {:induction false} RemoveAsciiWhitespaceKeeps(s: string, i: nat)
    requires i < |s| && !IsAsciiWhitespace(s[i])
    ensures s[i] in RemoveAsciiWhitespace(s)
  {
    if i > 0 {
      RemoveAsciiWhitespaceKeeps(s[1..], i - 1);
    }
  }

  /** Step 2 of forgiving-base64 decode: drop one or two trailing '=' when the length divides by 4. */
  function DropPadding(data: string): string {
    if |data| % 4 == 0 && |data| >= 2 && data[|data| - 2..] == "==" then data[..|data| - 2]
    else if |data| % 4 == 0 && |data| >= 1 && data[|data| - 1] == '=' then data[..|data| - 1]
    else data
  }

  /** Step 5 of forgiving-base64 decode: each character's six-bit value. */
  function Values(d: string): (v: seq<int>)
    requires AllInAlphabet(d)
    ensures |v| == |d| && AllSextets(v)
  {
    seq(|d|, i requires 0 <= i < |d| => ValueOf(d[i]))
  }

  /** Steps 6 to 8: every 24 bits become three bytes; a final 18 or 12 bits lose
      their last 2 or 4 bits and become two bytes or one. */
  function FromSextets(v: seq<int>): (b: seq<byte>)
    requires AllSextets(v) && |v| % 4 != 1
    decreases |v|
  {
    if |v| >= 4 then
      var a, b, c, e := v[0], v[1], v[2], v[3];
      [(a * 4 + b / 16) as byte, (b % 16 * 16 + c / 4) as byte, (c % 4 * 64 + e) as byte]
      + FromSextets(v[4..])
    else if |v| == 3 then
      var a, b, c := v[0], v[1], v[2];
      [(a * 4 + b / 16) as byte, (b % 16 * 16 + c / 4) as byte]
    else if |v| == 2 then
      var a, b := v[0], v[1];
      [(a * 4 + b / 16) as byte]
    else []
  }

  function DecodeCore(d: string): (b: seq<byte>)
    requires AllInAlphabet(d) && |d| % 4 != 1
  {
    FromSextets(Values(d))
  }

  /** Forgiving-base64 decode (WHATWG Infra Standard); None is "failure". */
  function ForgivingDecode(s: string): (r: Option<seq<byte>>)
    ensures r.Some? <==> (|DropPadding(RemoveAsciiWhitespace(s))| % 4 != 1
                          && AllInAlphabet(DropPadding(RemoveAsciiWhitespace(s))))
  {
    var data := DropPadding(RemoveAsciiWhitespace(s));
    if |data| % 4 == 1 then None
    else if !AllInAlphabet(data) then None
    else Some(DecodeCore(data))
  }

  /** One character that is neither whitespace, nor '=', nor in the alphabet makes the decoder fail. */
  lemma DecodeRejectsForeign(s: string, k: nat)
    requires k < |s| && !IsAsciiWhitespace(s[k]) && !InAlphabet(s[k]) && s[k] != '='
    ensures ForgivingDecode(s) == None
  {
    var c := s[k];
    RemoveAsciiWhitespaceKeeps(s, k);
    var data := RemoveAsciiWhitespace(s);
    var n :| 0 <= n < |data| && data[n] == c;
    var d := DropPadding(data);
    assert n < |d| && d[n] == c;
  }

  lemma QuantumRoundTrip(b0: int, b1: int, b2: int)
    requires 0 <= b0 < 256 && 0 <= b1 < 256 && 0 <= b2 < 256
    ensures (b0 / 4) * 4 + (b0 % 4 * 16 + b1 / 16) / 16 == b0
    ensures (b0 % 4 * 16 + b1 / 16) % 16 * 16 + (b1 % 16 * 4 + b2 / 64) / 4 == b1
    ensures (b1 % 16 * 4 + b2 / 64) % 4 * 64 + b2 % 64 == b2
  {
  }

  /** The same, with the four groups named. */
  lemma QuantumBytes(a: int, b: int, c: int, e: int, b0: int, b1: int, b2: int)
    requires 0 <= b0 < 256 && 0 <= b1 < 256 && 0 <= b2 < 256
    requires a == b0 / 4 && b == b0 % 4 * 16 + b1 / 16 && c == b1 % 16 * 4 + b2 / 64 && e == b2 % 64
    ensures a * 4 + b / 16 == b0 && b % 16 * 16 + c / 4 == b1 && c % 4 * 64 + e == b2
  {
    QuantumRoundTrip(b0, b1, b2);
  }

  lemma PairRoundTrip(b0: int, b1: int)
    requires 0 <= b0 < 256 && 0 <= b1 < 256
    ensures (b0 / 4) * 4 + (b0 % 4 * 16 + b1 / 16) / 16 == b0
    ensures (b0 % 4 * 16 + b1 / 16) % 16 * 16 + (b1 % 16 * 4) / 4 == b1
  {
  }

  lemma SingleRoundTrip(b0: int)
    requires 0 <= b0 < 256
    ensures (b0 / 4) * 4 + (b0 % 4 * 16) / 16 == b0
  {
  }

  /** A quantum of four groups in front of the rest regroups on its own. */
  lemma FromSextetsAppend(q: seq<int>, rest: seq<int>)
    requires |q| == 4 && AllSextets(q) && AllSextets(rest) && |rest| % 4 != 1
    ensures AllSextets(q + rest) && |q + rest| % 4 != 1
    ensures FromSextets(q + rest) == FromSextets(q) + FromSextets(rest)
  {
    var v := q + rest;
    assert v[..4] == q && v[4..] == rest;
    assert q[4..] == [];
  }

  /** A full quantum's four groups regroup into its three bytes. */
  lemma FromSextetsQuantum(b0: byte, b1: byte, b2: byte)
    ensures FromSextets(Quantum(b0, b1, b2)) == [b0, b1, b2]
  {
    var q := Quantum(b0, b1, b2);
    assert q[4..] == [];
    QuantumBytes(q[0], q[1], q[2], q[3], b0 as int, b1 as int, b2 as int);
  }

  /** Regrouping the six-bit groups of `b` into bytes gives `b` back. */
  lemma {:induction false} FromSextetsSextets(b: seq<byte>)
    ensures FromSextets(Sextets(b)) == b
    decreases |b|
  {
    if |b| >= 3 {
      FromSextetsAppend(Quantum(b[0], b[1], b[2]), Sextets(b[3..]));
      FromSextetsQuantum(b[0], b[1], b[2]);
      FromSextetsSextets(b[3..]);
      assert b == [b[0], b[1], b[2]] + b[3..];
    } else if |b| == 2 {
      FromSextetsPair(b[0], b[1]);
      assert b == [b[0], b[1]];
    } else if |b| == 1 {
      FromSextetsSingle(b[0]);
      assert b == [b[0]];
    }
  }

  /** A final pair's three groups regroup into its two bytes. */
  lemma FromSextetsPair(b0: byte, b1: byte)
    ensures FromSextets(Pair(b0, b1)) == [b0, b1]
  {
    PairRoundTrip(b0 as int, b1 as int);
  }

  /** A final single byte's two groups regroup into it. */
  lemma FromSextetsSingle(b0: byte)
    ensures FromSextets(Single(b0)) == [b0]
  {
    SingleRoundTrip(b0 as int);
  }

  /** Reading the base64 characters back as six-bit values gives the groups they encode. */
  lemma ValuesEncodeCore(b: seq<byte>)
    ensures Values(EncodeCore(b)) == Sextets(b)
  {
    var v := Sextets(b);
    forall i | 0 <= i < |v| ensures Values(EncodeCore(b))[i] == v[i] {
      ValueOfCharOf(v[i]);
    }
  }

  /** Decoding the unpadded quanta gives the bytes back. */
  lemma DecodeEncodeCore(b: seq<byte>)
    ensures |EncodeCore(b)| % 4 != 1
    ensures DecodeCore(EncodeCore(b)) == b
  {
    ValuesEncodeCore(b);
    FromSextetsSextets(b);
  }

  /** Base64 output holds alphabet characters and '=' only. */
  lemma EncodeHasNoWhitespace(b: seq<byte>)
    ensures forall i :: 0 <= i < |Encode(b)| ==> InAlphabet(Encode(b)[i]) || Encode(b)[i] == '='
    ensures RemoveAsciiWhitespace(Encode(b)) == Encode(b)
  {
    var s := Encode(b);
    var core := EncodeCore(b);
    assert forall i :: 0 <= i < |s| ==> InAlphabet(s[i]) || s[i] == '=' by {
      forall i | 0 <= i < |s| ensures InAlphabet(s[i]) || s[i] == '=' {
        if i < |core| {
          assert s[i] == core[i];
        }
      }
    }
    RemoveAsciiWhitespaceOfClean(s);
  }

  predicate NoPadChar(core: string) {
    forall i :: 0 <= i < |core| ==> core[i] != '='
  }

  /** Two '=' after a length of 2 modulo 4 are dropped. */
  lemma DropTwoPads(core: string)
    requires NoPadChar(core) && |core| % 4 == 2
    ensures DropPadding(core + "==") == core
  {
    var s := core + "==";
    assert s[|s| - 2..] == "==";
    assert s[..|s| - 2] == core;
  }

  /** One '=' after a length of 3 modulo 4 is dropped. */
  lemma DropOnePad(core: string)
    requires NoPadChar(core) && |core| % 4 == 3
    ensures DropPadding(core + "=") == core
  {
    var s := core + "=";
    assert s[|s| - 2] == core[|core| - 1] != '=';
    assert s[|s| - 2..] != "==";
    assert s[..|s| - 1] == core;
  }

  /** Unpadded input of a length divisible by 4 is kept. */
  lemma DropNoPad(core: string)
    requires NoPadChar(core) && |core| % 4 == 0
    ensures DropPadding(core) == core
  {
    if |core| > 0 {
      assert core[|core| - 1] != '=';
      assert core[|core| - 2..][1] == core[|core| - 1];
    }
  }

  /** The decoder's padding step removes exactly the padding the encoder added. */
  lemma DropPaddingOfEncode(b: seq<byte>)
    ensures DropPadding(Encode(b)) == EncodeCore(b)
  {
    var core := EncodeCore(b);
    assert NoPadChar(core);
    if |b| % 3 == 1 {
      DropTwoPads(core);
    } else if |b| % 3 == 2 {
      DropOnePad(core);
    } else {
      DropNoPad(core);
    }
  }

  /** So the decoder's first two steps leave exactly the unpadded quanta. */
  lemma DecoderInputOfEncode(b: seq<byte>)
    ensures DropPadding(RemoveAsciiWhitespace(Encode(b))) == EncodeCore(b)
  {
    EncodeHasNoWhitespace(b);
    DropPaddingOfEncode(b);
  }

  /** `atob(b64encode(b))` yields `b`: the two ends of the payload agree. */
  lemma DecodeEncode(b: seq<byte>)
    ensures ForgivingDecode(Encode(b)) == Some(b)
  {
    DecoderInputOfEncode(b);
    DecodeEncodeCore(b);
  }
}
