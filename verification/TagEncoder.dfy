/** The LVM tag codec of pkg/driverd/tagencoder.go. */
module TagEncoder {
  import opened Options
  import opened Bytes

  const HYPHEN: byte := 45
  const AMPERSAND: byte := 38
  const COMMA: byte := 44
  const SPACE: byte := 32

  predicate IsPlain(b: byte, pos: nat) {
    || 97 <= b <= 122                 // a-z
    || 65 <= b <= 90                  // A-Z
    || 48 <= b <= 57                  // 0-9
    || b == 95                        // _
    || b == 43                        // +
    || b == 46                        // .
    || (b == HYPHEN && pos > 0)       // LVM refuses tags that start with a hyphen
    || b == 47                        // /
    || b == 61                        // =
    || b == 33                        // !
    || b == 58                        // :
    || b == 35                        // #
  }

  function HexDigit(v: nat): byte
    requires v < 16
  {
    if v < 10 then 48 + v else 87 + v
  }

  function HexDecode(b: byte): Option<nat> {
    if 48 <= b <= 57 then Some(b - 48)
    else if 65 <= b <= 70 then Some(b - 55)
    else if 97 <= b <= 102 then Some(b - 87)
    else None
  }

  /** `&%2x`: lower-case hexadecimal, padded on the left with a space to two characters. */
  function Quote(b: byte): bytes {
    if b < 16 then [AMPERSAND, SPACE, HexDigit(b)] else [AMPERSAND, HexDigit(b / 16), HexDigit(b % 16)]
  }

  function EncodeByte(b: byte, pos: nat): bytes {
    if IsPlain(b, pos) then [b] else Quote(b)
  }

  /** The encoding of s when it starts at position off of the tag. */
  function EncodeAt(s: bytes, off: nat): (r: bytes)
    ensures |r| >= |s|
  {
    if s == [] then []
    else EncodeAt(s[..|s| - 1], off) + EncodeByte(s[|s| - 1], off + |s| - 1)
  }

  function Encode(s: bytes): bytes {
    EncodeAt(s, 0)
  }

  datatype QuoteState = Normal | Quote1 | Quote2

  /** The decoder's variables: output so far, qState and qValue. */
  datatype Decoding = Decoding(out: bytes, q: QuoteState, value: nat)

  function DecodeStep(st: Decoding, b: byte, i: nat): Option<Decoding> {
    if !st.q.Normal? then
      var v := HexDecode(b);
      if v.None? then None
      else if st.q.Quote1? then Some(st.(value := v.value * 16, q := Quote2))
      else Some(Decoding(st.out + [(st.value + v.value) % 256], Normal, 0))
    else if b == AMPERSAND then Some(st.(q := Quote1))
    else if IsPlain(b, i) then Some(st.(out := st.out + [b]))
    else None
  }

  function DecodeRun(s: bytes): Option<Decoding> {
    if s == [] then Some(Decoding([], Normal, 0))
    else
      var st := DecodeRun(s[..|s| - 1]);
      if st.None? then None else DecodeStep(st.value, s[|s| - 1], |s| - 1)
  }

  function Decode(s: bytes): Option<bytes> {
    var st := DecodeRun(s);
    if st.None? || !st.value.q.Normal? then None else Some(st.value.out)
  }

  method EncodeTag(value: bytes) returns (r: bytes)
    ensures r == Encode(value)
  {
    r := [];
    for i := 0 to |value|
      invariant r == EncodeAt(value[..i], 0)
    {
      assert value[..i + 1][..i] == value[..i];
      if IsPlain(value[i], i) {
        r := r + [value[i]];
      } else {
        r := r + Quote(value[i]);
      }
    }
    assert value[..|value|] == value;
  }

  method DecodeTag(encoded: bytes) returns (r: Option<bytes>)
    ensures r == Decode(encoded)
  {
    var st := Decoding([], Normal, 0);
    for i := 0 to |encoded|
      invariant DecodeRun(encoded[..i]) == Some(st)
    {
      assert encoded[..i + 1][..i] == encoded[..i];
      var next := DecodeStep(st, encoded[i], i);
      if next.None? {
        DecodeStuck(encoded, i + 1);
        return None;
      }
      st := next.value;
    }
    assert encoded[..|encoded|] == encoded;
    if !st.q.Normal? {
      return None;
    }
    r := Some(st.out);
  }

  /** An error at some point of the input is an error of the whole. */
  lemma {:induction false} DecodeStuck(s: bytes, k: nat)
    requires k <= |s| && DecodeRun(s[..k]).None?
    ensures DecodeRun(s).None?
    decreases |s| - k
  {
    if k == |s| {
      assert s[..k] == s;
    } else {
      assert s[..k + 1][..k] == s[..k];
      DecodeStuck(s, k + 1);
    }
  }

  // ---------------------------------------------------------------------------------------
  // Round trip
  // ---------------------------------------------------------------------------------------

  /** No byte below 0x10: those are the ones that quoting pads with a space. */
  predicate Quotable(s: bytes) {
    forall i :: 0 <= i < |s| ==> s[i] >= 16
  }

  lemma DecodeAppend(s: bytes, b: byte)
    ensures DecodeRun(s + [b]) == if DecodeRun(s).None? then None else DecodeStep(DecodeRun(s).value, b, |s|)
  {
    assert (s + [b])[..|s|] == s;
  }

  lemma HexRoundTrip(v: nat)
    requires v < 16
    ensures HexDecode(HexDigit(v)) == Some(v)
  {
  }

  /** Decoding the encoding of one more byte. */
  lemma DecodeByte(e: bytes, out: bytes, b: byte, pos: nat)
    requires DecodeRun(e) == Some(Decoding(out, Normal, 0))
    requires b == HYPHEN && pos > 0 ==> |e| > 0
    ensures DecodeRun(e + EncodeByte(b, pos)) == if b >= 16 then Some(Decoding(out + [b], Normal, 0)) else None
  {
    if IsPlain(b, pos) {
      DecodeAppend(e, b);
    } else {
      DecodeQuoted(e, out, b);
    }
  }

  lemma DecodeQuoted(e: bytes, out: bytes, b: byte)
    requires DecodeRun(e) == Some(Decoding(out, Normal, 0))
    ensures DecodeRun(e + Quote(b)) == if b >= 16 then Some(Decoding(out + [b], Normal, 0)) else None
  {
    var q := Quote(b);
    DecodeAppend(e, q[0]);
    DecodeAppend(e + [q[0]], q[1]);
    DecodeAppend(e + [q[0]] + [q[1]], q[2]);
    assert e + q == e + [q[0]] + [q[1]] + [q[2]];
    if b >= 16 {
      HexRoundTrip(b / 16);
      HexRoundTrip(b % 16);
    }
  }

  /** The decoder run on an encoding: the value itself, or stuck on the first byte below 0x10. */
  lemma {:induction false} DecodeEncoded(s: bytes)
    ensures DecodeRun(Encode(s)) == if Quotable(s) then Some(Decoding(s, Normal, 0)) else None
    decreases |s|
  {
    if s != [] {
      var n := |s| - 1;
      var front, e := s[..n], Encode(s[..n]);
      DecodeEncoded(front);
      assert s == front + [s[n]];
      if Quotable(front) {
        DecodeByte(e, front, s[n], n);
      } else {
        assert !Quotable(s);
        assert Encode(s)[..|e|] == e;
        DecodeStuck(Encode(s), |e|);
      }
    }
  }

  /** decodeTag gives back what encodeTag was given if and only if no byte is below 0x10. */
  lemma RoundTripIff(s: bytes)
    ensures Decode(Encode(s)) == Some(s) <==> Quotable(s)
    ensures !Quotable(s) ==> Decode(Encode(s)).None?
  {
    DecodeEncoded(s);
  }

  lemma EncodeInjective(s: bytes, t: bytes)
    requires Quotable(s) && Encode(s) == Encode(t)
    ensures s == t
  {
    RoundTripIff(s);
    RoundTripIff(t);
  }

  // ---------------------------------------------------------------------------------------
  // The characters of LVM tags
  // ---------------------------------------------------------------------------------------

  /** The characters that lvm(8) allows in a tag: letters, digits and ten others. */
  predicate LvmTagChar(b: byte) {
    var c := b as char;
    'a' <= c <= 'z' || 'A' <= c <= 'Z' || '0' <= c <= '9' || c in {'_', '+', '.', '-', '/', '=', '!', ':', '&', '#'}
  }

  predicate AllTagChars(s: bytes) {
    forall i :: 0 <= i < |s| ==> LvmTagChar(s[i])
  }

  /** A tag that LVM takes as it is and that has no quoting in it. */
  predicate Verbatim(s: bytes) {
    (forall i :: 0 <= i < |s| ==> LvmTagChar(s[i]) && s[i] as char != '&') && (s != [] ==> s[0] as char != '-')
  }

  /** isPlain is the alphabet of LVM without the ampersand, and without a hyphen in front. */
  lemma PlainIff(b: byte, pos: nat)
    ensures IsPlain(b, pos) <==> LvmTagChar(b) && b as char != '&' && (b as char == '-' ==> pos > 0)
  {
  }

  lemma VerbatimIff(s: bytes)
    ensures Verbatim(s) <==> forall i :: 0 <= i < |s| ==> IsPlain(s[i], i)
  {
    hide IsPlain;
    hide LvmTagChar;
    forall i | 0 <= i < |s|
      ensures IsPlain(s[i], i) <==> LvmTagChar(s[i]) && s[i] as char != '&' && (s[i] as char == '-' ==> i > 0)
    {
      PlainIff(s[i], i);
    }
    if (forall i :: 0 <= i < |s| ==> IsPlain(s[i], i)) && s != [] {
      assert IsPlain(s[0], 0);
    }
    if !(forall i :: 0 <= i < |s| ==> IsPlain(s[i], i)) {
      var i :| 0 <= i < |s| && !IsPlain(s[i], i);
    }
    if Verbatim(s) {
      LeadingOnly(s);
    }
  }

  lemma LeadingOnly(s: bytes)
    requires Verbatim(s)
    ensures forall i :: 0 <= i < |s| ==> LvmTagChar(s[i]) && s[i] as char != '&' && (i == 0 ==> s[i] as char != '-')
  {
  }

  lemma {:induction false} EncodeAlphabet(s: bytes, off: nat)
    ensures AllTagChars(EncodeAt(s, off)) <==> Quotable(s)
    ensures COMMA !in EncodeAt(s, off)
    decreases |s|
  {
    hide LvmTagChar;
    hide EncodeByte;
    if s != [] {
      var n := |s| - 1;
      var front, b := s[..n], s[n];
      EncodeAlphabet(front, off);
      var e, q := EncodeAt(front, off), EncodeByte(b, off + n);
      assert s == front + [b];
      assert EncodeAt(s, off) == e + q;
      ByteAlphabet(b, off + n);
      if AllTagChars(e + q) {
        assert forall i :: 0 <= i < |e| ==> (e + q)[i] == e[i];
        assert forall i :: 0 <= i < |q| ==> (e + q)[|e| + i] == q[i];
      }
    }
  }

  lemma ByteAlphabet(b: byte, pos: nat)
    ensures AllTagChars(EncodeByte(b, pos)) <==> b >= 16
    ensures COMMA !in EncodeByte(b, pos)
  {
    if b < 16 {
      assert EncodeByte(b, pos)[1] == SPACE;
    }
  }

  /** No encoding starts with a hyphen, although hyphens elsewhere stay plain. */
  lemma {:induction false} NoLeadingHyphen(s: bytes)
    ensures Encode(s) != [] ==> Encode(s)[0] != HYPHEN
    decreases |s|
  {
    if s != [] {
      NoLeadingHyphen(s[..|s| - 1]);
    }
  }

  /** Only plain bytes are copied, and each copied one is plain where it stands. */
  lemma {:induction false} EncodePlain(s: bytes, off: nat)
    ensures (forall i :: 0 <= i < |s| ==> IsPlain(s[i], off + i)) ==> EncodeAt(s, off) == s
    ensures |EncodeAt(s, off)| == |s| ==> forall i :: 0 <= i < |s| ==> IsPlain(s[i], off + i)
    decreases |s|
  {
    hide IsPlain;
    if s != [] {
      var n := |s| - 1;
      EncodePlain(s[..n], off);
      assert s == s[..n] + [s[n]];
      if forall i :: 0 <= i < |s| ==> IsPlain(s[i], off + i) {
        assert IsPlain(s[n], off + n);
        assert forall i :: 0 <= i < n ==> s[..n][i] == s[i];
      }
      if |EncodeAt(s, off)| == |s| {
        forall i | 0 <= i < |s|
          ensures IsPlain(s[i], off + i)
        {
          if i < n { assert s[..n][i] == s[i]; }
        }
      }
    }
  }

  /** A value is its own encoding if and only if LVM takes it as it is. */
  lemma EncodeFixedIff(s: bytes)
    ensures Encode(s) == s <==> Verbatim(s)
  {
    VerbatimIff(s);
    EncodePlain(s, 0);
  }

  /** A quoted byte: an ampersand and two lower-case hexadecimal digits, a space for the first below 0x10. */
  lemma QuotedForm(b: byte, pos: nat)
    requires !(LvmTagChar(b) && b as char != '&' && (b as char == '-' ==> pos > 0))
    ensures var e := EncodeByte(b, pos);
            && |e| == 3 && e[0] as char == '&' && LowerHex(e[2]) && HexValue(e[2]) == b % 16
            && (if b < 16 then e[1] as char == ' ' else LowerHex(e[1]) && HexValue(e[1]) == b / 16)
  {
    PlainIff(b, pos);
  }

  predicate LowerHex(b: byte) {
    '0' <= b as char <= '9' || 'a' <= b as char <= 'f'
  }

  // ---------------------------------------------------------------------------------------
  // Which tags decode, and to what
  // ---------------------------------------------------------------------------------------

  predicate HexChar(b: byte) {
    var c := b as char;
    '0' <= c <= '9' || 'a' <= c <= 'f' || 'A' <= c <= 'F'
  }

  function HexValue(b: byte): (v: nat)
    requires HexChar(b)
    ensures v < 16
  {
    var c := b as char;
    if c <= '9' then c as int - '0' as int
    else if c <= 'F' then c as int - 'A' as int + 10
    else c as int - 'a' as int + 10
  }

  /** From position i on the tag is made of plain characters and of ampersands with two hexadecimal digits. */
  predicate WellQuoted(t: bytes, i: nat)
    requires i <= |t|
    decreases |t| - i
  {
    if i == |t| then true
    else if t[i] as char == '&' then i + 3 <= |t| && HexChar(t[i + 1]) && HexChar(t[i + 2]) && WellQuoted(t, i + 3)
    else LvmTagChar(t[i]) && (t[i] as char == '-' ==> i > 0) && WellQuoted(t, i + 1)
  }

  /** What such a tag stands for. */
  function Unquoted(t: bytes, i: nat): bytes
    requires i <= |t| && WellQuoted(t, i)
    decreases |t| - i
  {
    if i == |t| then []
    else if t[i] as char == '&' then [(16 * HexValue(t[i + 1]) + HexValue(t[i + 2])) as byte] + Unquoted(t, i + 3)
    else [t[i]] + Unquoted(t, i + 1)
  }

  lemma HexIff(b: byte)
    ensures HexDecode(b) == if HexChar(b) then Some(HexValue(b)) else None
  {
  }

  lemma RunNext(t: bytes, i: nat)
    requires i < |t|
    ensures DecodeRun(t[..i + 1]) == if DecodeRun(t[..i]).None? then None else DecodeStep(DecodeRun(t[..i]).value, t[i], i)
  {
    assert t[..i + 1] == t[..i] + [t[i]];
    DecodeAppend(t[..i], t[i]);
  }

  lemma RunAll(t: bytes)
    ensures DecodeRun(t[..|t|]) == DecodeRun(t)
  {
    assert t[..|t|] == t;
  }

  /** The decoder behind an ampersand and one digit. */
  lemma SecondDigit(t: bytes, i: nat, out: bytes, v: nat)
    requires i <= |t| && v < 16 && DecodeRun(t[..i]) == Some(Decoding(out, Quote2, 16 * v))
    ensures if i < |t| && HexChar(t[i]) then DecodeRun(t[..i + 1]) == Some(Decoding(out + [16 * v + HexValue(t[i])], Normal, 0))
            else Decode(t).None?
  {
    hide HexDecode;
    hide DecodeRun;
    hide HexValue;
    RunAll(t);
    if i < |t| {
      HexIff(t[i]);
      RunNext(t, i);
      if !HexChar(t[i]) { DecodeStuck(t, i + 1); }
    }
  }

  /** The decoder at an ampersand: a byte more after two digits, stuck or unfinished otherwise. */
  lemma QuoteRun(t: bytes, i: nat, out: bytes)
    requires i < |t| && t[i] as char == '&' && DecodeRun(t[..i]) == Some(Decoding(out, Normal, 0))
    ensures if i + 3 <= |t| && HexChar(t[i + 1]) && HexChar(t[i + 2])
            then DecodeRun(t[..i + 3]) == Some(Decoding(out + [16 * HexValue(t[i + 1]) + HexValue(t[i + 2])], Normal, 0))
            else Decode(t).None?
  {
    hide HexDecode;
    hide DecodeRun;
    hide HexValue;
    RunAll(t);
    RunNext(t, i);
    if i + 1 < |t| {
      HexIff(t[i + 1]);
      RunNext(t, i + 1);
      if !HexChar(t[i + 1]) {
        DecodeStuck(t, i + 2);
      } else {
        SecondDigit(t, i + 2, out, HexValue(t[i + 1]));
      }
    }
  }

  /** The decoder at any other character: copied where it is plain, stuck otherwise. */
  lemma PlainRun(t: bytes, i: nat, out: bytes)
    requires i < |t| && t[i] as char != '&' && DecodeRun(t[..i]) == Some(Decoding(out, Normal, 0))
    ensures if LvmTagChar(t[i]) && (t[i] as char == '-' ==> i > 0)
            then DecodeRun(t[..i + 1]) == Some(Decoding(out + [t[i]], Normal, 0))
            else Decode(t).None?
  {
    hide IsPlain;
    hide LvmTagChar;
    PlainIff(t[i], i);
    RunNext(t, i);
    if !IsPlain(t[i], i) { DecodeStuck(t, i + 1); }
  }

  lemma RunEnds(t: bytes, out: bytes)
    requires DecodeRun(t[..|t|]) == Some(Decoding(out, Normal, 0))
    ensures Decode(t) == Some(out)
  {
    RunAll(t);
  }

  /** The value of a tag whose first part stands for x and ends at position i. */
  function Rest(t: bytes, i: nat, x: bytes): Option<bytes>
    requires i <= |t|
  {
    if WellQuoted(t, i) then Some(x + Unquoted(t, i)) else None
  }

  lemma RestEnd(t: bytes, x: bytes)
    ensures Rest(t, |t|, x) == Some(x)
  {
    assert x + [] == x;
  }

  lemma RestQuoted(t: bytes, i: nat, x: bytes)
    requires i < |t| && t[i] as char == '&'
    ensures Rest(t, i, x) == if i + 3 <= |t| && HexChar(t[i + 1]) && HexChar(t[i + 2])
                             then Rest(t, i + 3, x + [16 * HexValue(t[i + 1]) + HexValue(t[i + 2])]) else None
  {
    hide HexValue;
    hide HexChar;
    if i + 3 <= |t| && HexChar(t[i + 1]) && HexChar(t[i + 2]) && WellQuoted(t, i + 3) {
      var b: byte, u := 16 * HexValue(t[i + 1]) + HexValue(t[i + 2]), Unquoted(t, i + 3);
      assert x + ([b] + u) == x + [b] + u;
    }
  }

  lemma RestPlain(t: bytes, i: nat, x: bytes)
    requires i < |t| && t[i] as char != '&'
    ensures Rest(t, i, x) == if LvmTagChar(t[i]) && (t[i] as char == '-' ==> i > 0) then Rest(t, i + 1, x + [t[i]]) else None
  {
    hide LvmTagChar;
    if WellQuoted(t, i + 1) {
      assert x + ([t[i]] + Unquoted(t, i + 1)) == x + [t[i]] + Unquoted(t, i + 1);
    }
  }

  lemma {:induction false} DecodeFrom(t: bytes, i: nat, x: bytes)
    requires i <= |t| && DecodeRun(t[..i]) == Some(Decoding(x, Normal, 0))
    ensures Decode(t) == Rest(t, i, x)
    decreases |t| - i
  {
    hide HexValue;
    hide HexChar;
    hide LvmTagChar;
    hide Decode;
    hide DecodeRun;
    hide Rest;
    if i == |t| {
      RunEnds(t, x);
      RestEnd(t, x);
    } else if t[i] as char == '&' {
      QuoteRun(t, i, x);
      RestQuoted(t, i, x);
      if i + 3 <= |t| && HexChar(t[i + 1]) && HexChar(t[i + 2]) {
        DecodeFrom(t, i + 3, x + [16 * HexValue(t[i + 1]) + HexValue(t[i + 2])]);
      }
    } else {
      PlainRun(t, i, x);
      RestPlain(t, i, x);
      if LvmTagChar(t[i]) && (t[i] as char == '-' ==> i > 0) {
        DecodeFrom(t, i + 1, x + [t[i]]);
      }
    }
  }

  /** A tag decodes if and only if it is well quoted, and then to what it stands for. */
  lemma DecodeIs(t: bytes)
    ensures Decode(t) == if WellQuoted(t, 0) then Some(Unquoted(t, 0)) else None
  {
    assert t[..0] == [];
    DecodeFrom(t, 0, []);
    if WellQuoted(t, 0) { assert [] + Unquoted(t, 0) == Unquoted(t, 0); }
  }

  /** What a tag stands for is no longer than the tag, and as long only without quoting. */
  lemma {:induction false} UnquotedLength(t: bytes, i: nat)
    requires i <= |t| && WellQuoted(t, i)
    ensures |Unquoted(t, i)| <= |t| - i
    ensures |Unquoted(t, i)| == |t| - i <==> forall k :: i <= k < |t| ==> t[k] as char != '&'
    ensures (forall k :: i <= k < |t| ==> t[k] as char != '&') ==> Unquoted(t, i) == t[i..]
    decreases |t| - i
  {
    hide LvmTagChar;
    hide HexChar;
    hide HexValue;
    if i < |t| {
      if t[i] as char == '&' {
        UnquotedLength(t, i + 3);
      } else {
        UnquotedLength(t, i + 1);
        assert t[i..] == [t[i]] + t[i + 1..];
      }
    }
  }

  lemma {:induction false} VerbatimQuoted(t: bytes, i: nat)
    requires i <= |t| && forall k :: i <= k < |t| ==> t[k] as char != '&'
    ensures WellQuoted(t, i) <==> forall k :: i <= k < |t| ==> LvmTagChar(t[k]) && (k == 0 ==> t[k] as char != '-')
    decreases |t| - i
  {
    hide LvmTagChar;
    if i < |t| { VerbatimQuoted(t, i + 1); }
  }

  /** A tag stands for itself if and only if LVM takes it as it is and it has no quoting. */
  lemma DecodeFixedIff(t: bytes)
    ensures Decode(t) == Some(t) <==> Verbatim(t)
  {
    hide LvmTagChar;
    hide WellQuoted;
    hide Unquoted;
    DecodeIs(t);
    if WellQuoted(t, 0) { UnquotedLength(t, 0); }
    if forall k :: 0 <= k < |t| ==> t[k] as char != '&' { VerbatimQuoted(t, 0); }
    assert t[0..] == t;
  }
}
