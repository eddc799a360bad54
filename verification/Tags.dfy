/** The driver's tags of pkg/driverd/tags.go: keys and values in LVM tags, and maps of them. */
module Tags {
  import opened Options
  import opened Bytes
  import opened TagEncoder

  type Key = bytes

  const EQUALS: byte := 61

  /** "csi-sanlock-lvm.vleo.net/" */
  const PREFIX: bytes := [99, 115, 105, 45, 115, 97, 110, 108, 111, 99, 107, 45, 108, 118, 109, 46, 118, 108, 101, 111, 46, 110, 101, 116, 47]

  function EncodeKV(key: Key, value: bytes): bytes {
    Encode(PREFIX + key + [EQUALS] + value)
  }

  /** The three outcomes of decodeTagKV: not one of ours, an error, a key and a value. */
  datatype Decoded = Foreign | Bad | Pair(key: Key, value: bytes)

  predicate Ours(tag: bytes) {
    Encode(PREFIX) <= tag
  }

  /** strings.Index(s, "="). */
  function IndexEquals(s: bytes): (r: int)
    ensures -1 <= r < |s|
    ensures r >= 0 ==> s[r] == EQUALS && forall i :: 0 <= i < r ==> s[i] != EQUALS
    ensures r == -1 ==> forall i :: 0 <= i < |s| ==> s[i] != EQUALS
  {
    if s == [] then -1
    else if s[0] == EQUALS then 0
    else
      var r := IndexEquals(s[1..]);
      assert forall i :: 1 <= i < |s| ==> s[i] == s[1..][i - 1];
      if r == -1 then -1 else r + 1
  }

  function DecodeKV(tag: bytes): Decoded {
    if !Ours(tag) then Foreign
    else
      var decoded := Decode(tag[|Encode(PREFIX)|..]);
      if decoded.None? then Bad
      else
        var i := IndexEquals(decoded.value);
        if i == -1 then Bad else Pair(decoded.value[..i], decoded.value[i + 1..])
  }

  // ---------------------------------------------------------------------------------------
  // One tag
  // ---------------------------------------------------------------------------------------

  lemma {:induction false} EncodeAtConcat(s: bytes, t: bytes, off: nat)
    ensures EncodeAt(s + t, off) == EncodeAt(s, off) + EncodeAt(t, off + |s|)
    decreases |t|
  {
    hide EncodeByte;
    if t == [] {
      assert s + t == s;
      assert EncodeAt(t, off + |s|) == [];
    } else {
      var n := |t| - 1;
      var u, b := s + t, EncodeByte(t[n], off + |s| + n);
      EncodeAtConcat(s, t[..n], off);
      assert u[..|u| - 1] == s + t[..n] && u[|u| - 1] == t[n];
      assert EncodeAt(u, off) == EncodeAt(u[..|u| - 1], off) + b;
      assert EncodeAt(t, off + |s|) == EncodeAt(t[..n], off + |s|) + b;
    }
  }

  /** Only a leading hyphen is encoded differently inside a tag than at its start. */
  lemma {:induction false} EncodeInside(s: bytes, off: nat)
    requires off > 0 && (s != [] ==> s[0] != HYPHEN)
    ensures EncodeAt(s, off) == Encode(s)
    decreases |s|
  {
    if s != [] {
      EncodeInside(s[..|s| - 1], off);
    }
  }

  lemma EncodedPrefix()
    ensures Encode(PREFIX) == PREFIX
  {
    EncodePlain(PREFIX, 0);
  }

  /** The bytes of a text. */
  predicate Spells(b: bytes, text: string) {
    |b| == |text| && forall i :: 0 <= i < |b| ==> b[i] as char == text[i]
  }

  lemma PrefixText()
    ensures Spells(PREFIX, "csi-sanlock-lvm.vleo.net/")
  {
  }

  /** A pair of plain bytes is tagged as it reads: the prefix, the key, an equals sign and the value. */
  lemma PlainTag(key: Key, value: bytes)
    requires forall i :: 0 <= i < |key| ==> LvmTagChar(key[i]) && key[i] as char != '&'
    requires forall i :: 0 <= i < |value| ==> LvmTagChar(value[i]) && value[i] as char != '&'
    ensures var tag := EncodeKV(key, value);
            && |tag| == 25 + |key| + 1 + |value|
            && Spells(tag[..25], "csi-sanlock-lvm.vleo.net/")
            && tag[25..25 + |key|] == key && tag[25 + |key|] as char == '=' && tag[26 + |key|..] == value
  {
    hide LvmTagChar;
    PrefixText();
    PlainPrefix();
    var x := PREFIX + key + [EQUALS] + value;
    EncodeFixedIff(x);
    assert x[..25] == PREFIX && x[25..25 + |key|] == key && x[26 + |key|..] == value;
  }

  lemma PlainPrefix()
    ensures Verbatim(PREFIX) && |PREFIX| == 25 && LvmTagChar(EQUALS)
  {
  }

  lemma PartsBehind(p: bytes, x: bytes)
    requires EncodeAt(p, 0) == p
    ensures Encode(p + x) == p + EncodeAt(x, |p|)
    ensures p <= Encode(p + x) && Encode(p + x)[|p|..] == EncodeAt(x, |p|)
  {
    hide EncodeAt;
    EncodeAtConcat(p, x, 0);
  }

  /** The part of an encoded pair behind the prefix. */
  lemma KVParts(key: Key, value: bytes)
    ensures EncodeKV(key, value) == PREFIX + EncodeAt(key + [EQUALS] + value, |PREFIX|)
    ensures Ours(EncodeKV(key, value))
    ensures EncodeKV(key, value)[|Encode(PREFIX)|..] == EncodeAt(key + [EQUALS] + value, |PREFIX|)
  {
    hide EncodeAt;
    var p, x := PREFIX, key + [EQUALS] + value;
    EncodedPrefix();
    assert p + key + [EQUALS] + value == p + x;
    PartsBehind(p, x);
  }

  /** A key that survives: no equals sign, no leading hyphen. */
  predicate GoodKey(key: Key) {
    EQUALS !in key && (key != [] ==> key[0] != HYPHEN)
  }

  predicate GoodPair(key: Key, value: bytes) {
    GoodKey(key) && Quotable(key) && Quotable(value)
  }

  lemma QuotableParts(key: Key, value: bytes)
    ensures Quotable(key + [EQUALS] + value) <==> Quotable(key) && Quotable(value)
  {
    var x := key + [EQUALS] + value;
    if Quotable(x) {
      assert forall i :: 0 <= i < |key| ==> key[i] == x[i];
      assert forall i :: 0 <= i < |value| ==> value[i] == x[|key| + 1 + i];
    }
  }

  lemma SplitAtEquals(key: Key, value: bytes)
    ensures var x := key + [EQUALS] + value;
            var i := IndexEquals(x);
            i >= 0 && ((x[..i] == key && x[i + 1..] == value) <==> EQUALS !in key)
  {
    var x := key + [EQUALS] + value;
    var i := IndexEquals(x);
    assert x[|key|] == EQUALS;
    assert forall k :: 0 <= k < |key| ==> x[k] == key[k];
    if EQUALS !in key {
      assert i == |key|;
      assert x[..i] == key && x[i + 1..] == value;
    }
  }

  lemma {:induction false} LeadingHyphenStuck(s: bytes, off: nat)
    requires s != [] && s[0] == HYPHEN && off > 0
    ensures Decode(EncodeAt(s, off)).None?
  {
    EncodeAtConcat(s[..1], s[1..], off);
    assert s == s[..1] + s[1..];
    assert EncodeAt(s[..1], off) == [HYPHEN] by { EncodePlain(s[..1], off); assert s[..1] == [HYPHEN]; }
    var e := EncodeAt(s, off);
    assert e[..1] == [HYPHEN];
    DecodeAppend([], HYPHEN);
    assert [] + [HYPHEN] == [HYPHEN];
    DecodeStuck(e, 1);
  }

  /**
   A pair survives encoding and decoding if and only if its key has no equals sign and no leading
   hyphen, and no byte is below 0x10.
   */
  lemma KVRoundTripIff(key: Key, value: bytes)
    ensures DecodeKV(EncodeKV(key, value)) == Pair(key, value) <==> GoodPair(key, value)
  {
    hide EncodeAt;
    hide EncodeKV;
    hide Decode;
    hide Quotable;
    var x := key + [EQUALS] + value;
    KVParts(key, value);
    QuotableParts(key, value);
    SplitAtEquals(key, value);
    if key != [] && key[0] == HYPHEN {
      LeadingHyphenStuck(x, |PREFIX|);
    } else {
      EncodeInside(x, |PREFIX|);
      RoundTripIff(x);
    }
  }

  /**
   decodeTagKV on every tag: one without the prefix is foreign; of any other the rest must be well quoted
   and stand for a text with an equals sign, the first of which ends the key.
   */
  lemma DecodeKVIs(tag: bytes, key: Key, value: bytes)
    ensures DecodeKV(tag).Foreign? <==> !(PREFIX <= tag)
    ensures DecodeKV(tag).Bad? <==>
              PREFIX <= tag && !(WellQuoted(tag[|PREFIX|..], 0) && EQUALS in Unquoted(tag[|PREFIX|..], 0))
    ensures DecodeKV(tag) == Pair(key, value) <==>
              PREFIX <= tag && WellQuoted(tag[|PREFIX|..], 0)
              && Unquoted(tag[|PREFIX|..], 0) == key + [EQUALS] + value && EQUALS !in key
  {
    hide WellQuoted;
    hide Unquoted;
    hide Decode;
    EncodedPrefix();
    if PREFIX <= tag {
      var rest := tag[|PREFIX|..];
      DecodeIs(rest);
      if WellQuoted(rest, 0) {
        var x := Unquoted(rest, 0);
        SplitIs(x, key, value);
      }
    }
  }

  /** Cutting a text at its first equals sign. */
  lemma SplitIs(x: bytes, key: Key, value: bytes)
    ensures IndexEquals(x) == -1 <==> EQUALS !in x
    ensures IndexEquals(x) >= 0 ==>
              (x[..IndexEquals(x)] == key && x[IndexEquals(x) + 1..] == value <==> x == key + [EQUALS] + value && EQUALS !in key)
  {
    var i := IndexEquals(x);
    if i >= 0 {
      assert x == x[..i] + [EQUALS] + x[i + 1..];
      assert EQUALS !in x[..i];
      if x == key + [EQUALS] + value && EQUALS !in key { SplitAtEquals(key, value); }
    }
  }

  lemma KVInjective(key: Key, value: bytes, key': Key, value': bytes)
    requires GoodPair(key, value) && GoodPair(key', value')
    requires EncodeKV(key, value) == EncodeKV(key', value')
    ensures key == key' && value == value'
  {
    KVRoundTripIff(key, value);
    KVRoundTripIff(key', value');
  }

  lemma KVNoComma(key: Key, value: bytes)
    ensures COMMA !in EncodeKV(key, value) && EncodeKV(key, value) != []
  {
    EncodeAlphabet(PREFIX + key + [EQUALS] + value, 0);
  }

  // ---------------------------------------------------------------------------------------
  // Maps of tags
  // ---------------------------------------------------------------------------------------

  type TagMap = map<Key, bytes>

  predicate GoodMap(m: TagMap) {
    forall k :: k in m ==> GoodPair(k, m[k])
  }

  /** decodeTags: tags of others are skipped; an undecodable tag or a repeated key is an error. */
  function DecodeAll(tags: seq<bytes>): Option<TagMap> {
    if tags == [] then Some(map[])
    else
      var r, d := DecodeAll(tags[..|tags| - 1]), DecodeKV(tags[|tags| - 1]);
      if r.None? || d.Bad? then None
      else if d.Foreign? then r
      else if d.key in r.value then None
      else Some(r.value[d.key := d.value])
  }

  method DecodeTags(tags: seq<bytes>) returns (r: Option<TagMap>)
    ensures r == DecodeAll(tags)
  {
    var m: TagMap := map[];
    for i := 0 to |tags|
      invariant DecodeAll(tags[..i]) == Some(m)
    {
      assert tags[..i + 1][..i] == tags[..i];
      var d := DecodeKV(tags[i]);
      if d.Bad? || (d.Pair? && d.key in m) {
        DecodeAllStuck(tags, i + 1);
        return None;
      }
      if d.Pair? {
        m := m[d.key := d.value];
      }
    }
    assert tags[..|tags|] == tags;
    r := Some(m);
  }

  lemma {:induction false} DecodeAllStuck(tags: seq<bytes>, k: nat)
    requires k <= |tags| && DecodeAll(tags[..k]).None?
    ensures DecodeAll(tags).None?
    decreases |tags| - k
  {
    if k == |tags| {
      assert tags[..k] == tags;
    } else {
      assert tags[..k + 1][..k] == tags[..k];
      DecodeAllStuck(tags, k + 1);
    }
  }

  /** No tag of ours is undecodable, and no two carry the same key. */
  predicate Decodable(tags: seq<bytes>) {
    && (forall i :: 0 <= i < |tags| ==> !DecodeKV(tags[i]).Bad?)
    && (forall i, j :: 0 <= i < j < |tags| && DecodeKV(tags[i]).Pair? && DecodeKV(tags[j]).Pair?
          ==> DecodeKV(tags[i]).key != DecodeKV(tags[j]).key)
  }

  /** m has the pairs that the tags carry and no others. */
  ghost predicate Gathers(tags: seq<bytes>, m: TagMap) {
    && (forall i :: 0 <= i < |tags| && DecodeKV(tags[i]).Pair? ==>
          DecodeKV(tags[i]).key in m && m[DecodeKV(tags[i]).key] == DecodeKV(tags[i]).value)
    && (forall k :: k in m ==> exists i :: 0 <= i < |tags| && DecodeKV(tags[i]) == Pair(k, m[k]))
  }

  /**
   decodeTags on every list: it succeeds if and only if every tag of ours decodes and no key is
   repeated, and then gives exactly the pairs that the tags carry.
   */
  lemma {:induction false} DecodeAllIs(tags: seq<bytes>)
    ensures DecodeAll(tags).Some? <==> Decodable(tags)
    ensures DecodeAll(tags).Some? ==> Gathers(tags, DecodeAll(tags).value)
    decreases |tags|
  {
    hide DecodeKV;
    hide Decodable;
    hide Gathers;
    if tags == [] {
      NothingGathered();
    } else {
      var n := |tags| - 1;
      DecodeAllIs(tags[..n]);
      DecodableFront(tags);
      if DecodeAll(tags[..n]).Some? {
        GatherOne(tags, DecodeAll(tags[..n]).value);
      }
    }
  }

  lemma NothingGathered()
    ensures Decodable([]) && Gathers([], map[])
  {
  }

  lemma DecodableFront(tags: seq<bytes>)
    requires tags != []
    ensures Decodable(tags) ==> Decodable(tags[..|tags| - 1]) && !DecodeKV(tags[|tags| - 1]).Bad?
  {
    hide DecodeKV;
    assert forall i :: 0 <= i < |tags| - 1 ==> tags[..|tags| - 1][i] == tags[i];
  }

  /** One more tag: a pair with a new key is added, a pair with a known key or a bad tag is an error. */
  lemma GatherOne(tags: seq<bytes>, m: TagMap)
    requires tags != [] && Decodable(tags[..|tags| - 1]) && Gathers(tags[..|tags| - 1], m)
    ensures var d := DecodeKV(tags[|tags| - 1]);
            && (Decodable(tags) <==> !d.Bad? && (d.Pair? ==> d.key !in m))
            && (d.Foreign? ==> Gathers(tags, m))
            && (d.Pair? && d.key !in m ==> Gathers(tags, m[d.key := d.value]))
  {
    hide DecodeKV;
    var n := |tags| - 1;
    var front, d := tags[..n], DecodeKV(tags[n]);
    assert forall i :: 0 <= i < n ==> front[i] == tags[i];
    if d.Pair? {
      if d.key in m {
        var i :| 0 <= i < n && DecodeKV(front[i]) == Pair(d.key, m[d.key]);
        assert front[i] == tags[i];
      } else {
        var m' := m[d.key := d.value];
        forall k | k in m'
          ensures exists i :: 0 <= i < |tags| && DecodeKV(tags[i]) == Pair(k, m'[k])
        {
          if k == d.key {
            assert DecodeKV(tags[n]) == Pair(k, m'[k]);
          } else {
            var i :| 0 <= i < n && DecodeKV(front[i]) == Pair(k, m[k]);
            assert DecodeKV(tags[i]) == Pair(k, m'[k]);
          }
        }
      }
    }
    forall k | k in m
      ensures exists i :: 0 <= i < |tags| && DecodeKV(tags[i]) == Pair(k, m[k])
    {
      var i :| 0 <= i < n && DecodeKV(front[i]) == Pair(k, m[k]);
      assert DecodeKV(tags[i]) == Pair(k, m[k]);
    }
  }

  /** The list holds each pair of m exactly once, and otherwise only tags of others. */
  ghost predicate Lists(tags: seq<bytes>, m: TagMap) {
    && (forall i :: 0 <= i < |tags| && Ours(tags[i]) ==> exists k :: k in m && tags[i] == EncodeKV(k, m[k]))
    && (forall k :: k in m ==> EncodeKV(k, m[k]) in tags)
    && (forall i, j :: 0 <= i < j < |tags| && Ours(tags[i]) ==> tags[i] != tags[j])
  }

  /** Any list of the pairs of a good map, in any order and among any other tags, decodes to the map. */
  lemma {:induction false} DecodeListed(tags: seq<bytes>, m: TagMap)
    requires GoodMap(m) && Lists(tags, m)
    ensures DecodeAll(tags) == Some(m)
    decreases |tags|
  {
    hide EncodeKV;
    hide DecodeKV;
    hide Ours;
    hide GoodPair;
    if tags == [] {
      NothingListed(tags, m);
    } else {
      var n := |tags| - 1;
      var front, last := tags[..n], tags[n];
      if Ours(last) {
        var k :| k in m && last == EncodeKV(k, m[k]);
        ListsFront(tags, m, k);
        DecodeListed(front, m - {k});
        KVRoundTripIff(k, m[k]);
        assert (m - {k})[k := m[k]] == m;
      } else {
        ListsSkip(tags, m);
        DecodeListed(front, m);
        ForeignTag(last);
      }
    }
  }

  lemma ForeignTag(tag: bytes)
    requires !Ours(tag)
    ensures DecodeKV(tag) == Foreign
  {
  }

  lemma ListsSkip(tags: seq<bytes>, m: TagMap)
    requires tags != [] && Lists(tags, m) && !Ours(tags[|tags| - 1])
    ensures Lists(tags[..|tags| - 1], m)
  {
    hide EncodeKV;
    hide Ours;
    var n := |tags| - 1;
    var front := tags[..n];
    forall k | k in m
      ensures EncodeKV(k, m[k]) in front
    {
      OursKV(k, m[k]);
      var i :| 0 <= i < |tags| && tags[i] == EncodeKV(k, m[k]);
      assert front[i] == tags[i];
    }
  }

  lemma NothingListed(tags: seq<bytes>, m: TagMap)
    requires tags == [] && Lists(tags, m)
    ensures m == map[]
  {
    assert forall k :: k in m ==> EncodeKV(k, m[k]) in tags;
    assert m.Keys == {};
  }

  lemma ListsFront(tags: seq<bytes>, m: TagMap, k: Key)
    requires tags != [] && GoodMap(m) && Lists(tags, m) && k in m && tags[|tags| - 1] == EncodeKV(k, m[k])
    ensures Lists(tags[..|tags| - 1], m - {k})
  {
    hide EncodeKV;
    hide Ours;
    var n := |tags| - 1;
    var front, rest := tags[..n], m - {k};
    OursKV(k, m[k]);
    forall i | 0 <= i < n && Ours(front[i])
      ensures exists j :: j in rest && front[i] == EncodeKV(j, rest[j])
    {
      assert front[i] == tags[i] && tags[i] != tags[n];
      var j :| j in m && tags[i] == EncodeKV(j, m[j]);
      assert j in rest && rest[j] == m[j];
    }
    forall j | j in rest
      ensures EncodeKV(j, rest[j]) in front
    {
      assert EncodeKV(j, m[j]) in tags;
      var i :| 0 <= i < |tags| && tags[i] == EncodeKV(j, m[j]);
      KVDifferent(j, m[j], k, m[k]);
      assert front[i] == tags[i];
    }
  }

  lemma OursKV(key: Key, value: bytes)
    ensures Ours(EncodeKV(key, value))
  {
    KVParts(key, value);
  }

  lemma KVDifferent(key: Key, value: bytes, key': Key, value': bytes)
    requires GoodPair(key, value) && GoodPair(key', value') && key != key'
    ensures EncodeKV(key, value) != EncodeKV(key', value')
  {
    KVRoundTripIff(key, value);
    KVRoundTripIff(key', value');
  }

  // ---------------------------------------------------------------------------------------
  // encodeTags: sorted keys
  // ---------------------------------------------------------------------------------------

  /** The Go order on strings: byte-wise lexicographic. */
  predicate Less(a: Key, b: Key)
    decreases |a|
  {
    if b == [] then false
    else if a == [] then true
    else a[0] < b[0] || (a[0] == b[0] && Less(a[1..], b[1..]))
  }

  /** A proper prefix, or the smaller byte where the two first differ. */
  lemma {:induction false} LessIff(a: Key, b: Key)
    ensures Less(a, b) <==> a < b || exists i: nat :: i < |a| && i < |b| && a[..i] == b[..i] && a[i] < b[i]
    decreases |a|
  {
    if a != [] && b != [] {
      var x, y := a[1..], b[1..];
      LessIff(x, y);
      assert a == [a[0]] + x && b == [b[0]] + y;
      if a[0] < b[0] {
        assert a[..0] == b[..0];
      } else if a[0] == b[0] {
        forall i: nat | i < |x| && i < |y|
          ensures a[..i + 1] == b[..i + 1] <==> x[..i] == y[..i]
        {
          assert a[..i + 1] == [a[0]] + x[..i] && b[..i + 1] == [b[0]] + y[..i];
          assert x[..i] == a[..i + 1][1..] && y[..i] == b[..i + 1][1..];
        }
        if i: nat :| i < |x| && i < |y| && x[..i] == y[..i] && x[i] < y[i] {
          assert a[i + 1] < b[i + 1];
        }
        if i: nat :| i < |a| && i < |b| && a[..i] == b[..i] && a[i] < b[i] {
          assert x[i - 1] < y[i - 1] && a[..i - 1 + 1] == b[..i - 1 + 1];
        }
      } else {
        assert forall i: nat :: 0 < i < |a| && i < |b| ==> a[..i][0] == a[0] && b[..i][0] == b[0];
      }
    }
  }

  lemma {:induction false} LessTotal(a: Key, b: Key)
    ensures a == b || Less(a, b) || Less(b, a)
    ensures !(Less(a, b) && Less(b, a)) && !Less(a, a)
    decreases |a|
  {
    if a != [] && b != [] {
      LessTotal(a[1..], b[1..]);
      LessTotal(a[1..], a[1..]);
      assert a == [a[0]] + a[1..] && b == [b[0]] + b[1..];
    } else if a != [] {
      LessTotal(a[1..], a[1..]);
    }
  }

  lemma {:induction false} LessTrans(a: Key, b: Key, c: Key)
    requires Less(a, b) && Less(b, c)
    ensures Less(a, c)
    decreases |a|
  {
    if a != [] && a[0] == b[0] && b[0] == c[0] {
      LessTrans(a[1..], b[1..], c[1..]);
    }
  }

  ghost predicate Sorted(ks: seq<Key>) {
    forall i, j :: 0 <= i < j < |ks| ==> Less(ks[i], ks[j])
  }

  ghost predicate SortedKeys(ks: seq<Key>, keys: set<Key>) {
    Sorted(ks) && forall k :: k in ks <==> k in keys
  }

  /** There is only one sorted list of a set of keys. */
  lemma {:induction false} SortedUnique(ks: seq<Key>, ls: seq<Key>, keys: set<Key>)
    requires SortedKeys(ks, keys) && SortedKeys(ls, keys)
    ensures ks == ls
    decreases |ks|
  {
    assert |ls| > 0 ==> ls[0] in keys;
    if ks != [] {
      assert ks[0] in keys && ks[0] in ls;
      assert ls[0] in ks;
      FirstIsLeast(ks, ls[0]);
      FirstIsLeast(ls, ks[0]);
      LessTotal(ks[0], ls[0]);
      assert ks[0] == ls[0];
      SortedTail(ks, keys);
      SortedTail(ls, keys);
      SortedUnique(ks[1..], ls[1..], keys - {ks[0]});
      assert ks == [ks[0]] + ks[1..] && ls == [ls[0]] + ls[1..];
    }
  }

  lemma FirstIsLeast(ks: seq<Key>, k: Key)
    requires Sorted(ks) && k in ks
    ensures k == ks[0] || Less(ks[0], k)
  {
    var i :| 0 <= i < |ks| && ks[i] == k;
  }

  lemma SortedTail(ks: seq<Key>, keys: set<Key>)
    requires ks != [] && SortedKeys(ks, keys)
    ensures SortedKeys(ks[1..], keys - {ks[0]})
  {
    var t := ks[1..];
    forall k
      ensures k in t <==> k in keys - {ks[0]}
    {
      if k in t {
        var i :| 0 <= i < |t| && t[i] == k;
        assert ks[i + 1] == k && Less(ks[0], ks[i + 1]);
        LessTotal(k, k);
      }
      if k in keys - {ks[0]} {
        assert k in ks;
        var i :| 0 <= i < |ks| && ks[i] == k;
        assert t[i - 1] == k;
      }
    }
  }

  function EncodeList(m: TagMap, ks: seq<Key>): (r: seq<bytes>)
    requires forall k :: k in ks ==> k in m
    ensures |r| == |ks|
  {
    seq(|ks|, i requires 0 <= i < |ks| => assert ks[i] in ks; EncodeKV(ks[i], m[ks[i]]))
  }

  /** Put k where it belongs in a sorted list. */
  method InsertKey(ks: seq<Key>, k: Key) returns (r: seq<Key>)
    requires Sorted(ks) && k !in ks
    ensures Sorted(r)
    ensures forall x :: x in r <==> x in ks || x == k
  {
    var i := 0;
    while i < |ks| && Less(ks[i], k)
      invariant 0 <= i <= |ks|
      invariant forall j :: 0 <= j < i ==> Less(ks[j], k)
    {
      i := i + 1;
    }
    r := ks[..i] + [k] + ks[i..];
    forall j | i <= j < |ks|
      ensures Less(k, ks[j])
    {
      assert ks[i] in ks;
      LessTotal(ks[i], k);
      if i < j { LessTrans(k, ks[i], ks[j]); }
    }
    forall x
      ensures x in r <==> x in ks || x == k
    {
      assert ks == ks[..i] + ks[i..];
    }
  }

  method SortKeys(order: seq<Key>) returns (ks: seq<Key>)
    requires forall i, j :: 0 <= i < j < |order| ==> order[i] != order[j]
    ensures Sorted(ks)
    ensures forall k :: k in ks <==> k in order
  {
    ks := [];
    for i := 0 to |order|
      invariant Sorted(ks)
      invariant forall k :: k in ks <==> k in order[..i]
    {
      hide Sorted;
      assert order[i] !in order[..i];
      ks := InsertKey(ks, order[i]);
      assert order[..i + 1] == order[..i] + [order[i]];
    }
    assert order[..|order|] == order;
  }

  /**
   encodeTags: the map's keys come in any order, and are sorted first.  The result is the one
   sorted listing, so it does not depend on that order.
   */
  method EncodeTags(m: TagMap, order: seq<Key>) returns (r: seq<bytes>)
    requires forall k :: k in order <==> k in m
    requires forall i, j :: 0 <= i < j < |order| ==> order[i] != order[j]
    ensures exists ks :: SortedKeys(ks, m.Keys) && r == EncodeList(m, ks)
    ensures forall ks :: SortedKeys(ks, m.Keys) ==> r == EncodeList(m, ks)
  {
    hide EncodeKV;
    hide Sorted;
    var ks := SortKeys(order);
    assert SortedKeys(ks, m.Keys);
    r := [];
    for i := 0 to |ks|
      invariant |r| == i
      invariant forall j :: 0 <= j < i ==> r[j] == EncodeList(m, ks)[j]
    {
      assert ks[i] in ks;
      r := r + [EncodeKV(ks[i], m[ks[i]])];
    }
    forall ls | SortedKeys(ls, m.Keys)
      ensures r == EncodeList(m, ls)
    {
      SortedUnique(ks, ls, m.Keys);
    }
  }

  /** What encodeTags lists is a listing in the sense of DecodeListed. */
  lemma EncodedLists(m: TagMap, ks: seq<Key>)
    requires GoodMap(m) && SortedKeys(ks, m.Keys)
    ensures Lists(EncodeList(m, ks), m)
  {
    var r := EncodeList(m, ks);
    forall k | k in m ensures EncodeKV(k, m[k]) in r {
      assert k in ks;
      var i :| 0 <= i < |ks| && ks[i] == k;
      assert r[i] == EncodeKV(k, m[k]);
    }
    forall i | 0 <= i < |r| ensures exists k :: k in m && r[i] == EncodeKV(k, m[k]) {
      assert ks[i] in ks;
    }
    forall i, j | 0 <= i < j < |r| ensures r[i] != r[j] {
      assert ks[i] in ks && ks[j] in ks && Less(ks[i], ks[j]);
      LessTotal(ks[i], ks[j]);
      KVDifferent(ks[i], m[ks[i]], ks[j], m[ks[j]]);
    }
  }

  /** decodeTags after encodeTags is the identity on good maps. */
  lemma MapRoundTrip(m: TagMap, ks: seq<Key>)
    requires GoodMap(m) && SortedKeys(ks, m.Keys)
    ensures DecodeAll(EncodeList(m, ks)) == Some(m)
  {
    EncodedLists(m, ks);
    DecodeListed(EncodeList(m, ks), m);
  }
}
