/** Owner tags of a volume (pkg/driverd/volumelock.go setOwner), and tag lists as LVM reports them. */
module OwnerTags {
  import opened Options
  import opened Bytes
  import opened TagEncoder
  import opened Tags

  // ---------------------------------------------------------------------------------------
  // LVM reports tags as one comma-separated field
  // ---------------------------------------------------------------------------------------

  function Join(ts: seq<bytes>): bytes {
    if ts == [] then [] else if |ts| == 1 then ts[0] else ts[0] + [COMMA] + Join(ts[1..])
  }

  function FirstComma(s: bytes): (i: nat)
    requires COMMA in s
    ensures i < |s| && s[i] == COMMA && COMMA !in s[..i]
  {
    if s[0] == COMMA then 0
    else
      assert s == [s[0]] + s[1..];
      var j := FirstComma(s[1..]);
      assert s[..j + 1] == [s[0]] + s[1..][..j];
      j + 1
  }

  /** strings.Split(s, ","). */
  function Split(s: bytes): seq<bytes>
    decreases |s|
  {
    if COMMA !in s then [s] else var i := FirstComma(s); [s[..i]] + Split(s[i + 1..])
  }

  /** splitLvmField: the empty field has no tags. */
  function SplitField(s: bytes): seq<bytes> {
    if s == [] then [] else Split(s)
  }

  predicate CommaFree(ts: seq<bytes>) {
    forall i :: 0 <= i < |ts| ==> COMMA !in ts[i]
  }

  lemma {:induction false} SplitCommaFree(s: bytes)
    ensures CommaFree(Split(s)) && Split(s) != []
    decreases |s|
  {
    if COMMA in s { SplitCommaFree(s[FirstComma(s) + 1..]); }
  }

  /** The first comma behind comma-free bytes. */
  lemma CommaBehind(x: bytes, rest: bytes)
    requires COMMA !in x
    ensures COMMA in x + [COMMA] + rest && FirstComma(x + [COMMA] + rest) == |x|
  {
    var s := x + [COMMA] + rest;
    assert s[|x|] == COMMA;
    var i := FirstComma(s);
    assert forall k :: 0 <= k < |x| ==> s[k] == x[k];
    assert forall k :: 0 <= k < i ==> s[..i][k] == s[k];
  }

  lemma SplitHead(x: bytes, rest: bytes)
    requires COMMA !in x
    ensures Split(x + [COMMA] + rest) == [x] + Split(rest)
  {
    hide FirstComma;
    CommaBehind(x, rest);
    var s := x + [COMMA] + rest;
    assert s[..|x|] == x && s[|x| + 1..] == rest;
  }

  lemma {:induction false} SplitJoin(ts: seq<bytes>)
    requires ts != [] && CommaFree(ts)
    ensures Split(Join(ts)) == ts
    decreases |ts|
  {
    if |ts| == 1 {
      assert ts == [ts[0]];
    } else {
      SplitJoin(ts[1..]);
      SplitHead(ts[0], Join(ts[1..]));
      assert ts == [ts[0]] + ts[1..];
    }
  }

  lemma JoinEmpty(ts: seq<bytes>)
    ensures Join(ts) == [] <==> ts == [] || ts == [[]]
  {
    if |ts| > 1 { assert |Join(ts)| >= 1; }
  }

  /** A tag list survives the comma-separated field exactly when no tag has a comma, and it is not one empty tag. */
  lemma FieldRoundTripIff(ts: seq<bytes>)
    ensures SplitField(Join(ts)) == ts <==> CommaFree(ts) && ts != [[]]
  {
    JoinEmpty(ts);
    if ts != [] && ts != [[]] {
      SplitCommaFree(Join(ts));
      if CommaFree(ts) { SplitJoin(ts); }
    }
  }

  /** One empty tag is reported as no tag, and both decode to no pair. */
  lemma OneEmptyTag()
    ensures SplitField(Join([[]])) == []
    ensures DecodeAll([]) == DecodeAll([[]]) == Some(map[])
  {
    EncodedPrefix();
    var none: bytes := [];
    var one := [none];
    assert !Ours(none) && one[..0] == [];
  }

  /** The driver's tags, among comma-free tags of others, survive the field and decode to the map. */
  lemma FieldDecodes(ts: seq<bytes>, m: TagMap)
    requires GoodMap(m) && Lists(ts, m)
    requires forall i :: 0 <= i < |ts| && !Ours(ts[i]) ==> COMMA !in ts[i]
    ensures DecodeAll(SplitField(Join(ts))) == Some(m)
  {
    forall i | 0 <= i < |ts|
      ensures COMMA !in ts[i]
    {
      if Ours(ts[i]) {
        var k :| k in m && ts[i] == EncodeKV(k, m[k]);
        KVNoComma(k, m[k]);
      }
    }
    FieldRoundTripIff(ts);
    DecodeListed(ts, m);
    if ts == [[]] {
      OneEmptyTag();
    }
  }

  // ---------------------------------------------------------------------------------------
  // setOwner
  // ---------------------------------------------------------------------------------------

  /** "ownerId" */
  const OWNER_ID: Key := [111, 119, 110, 101, 114, 73, 100]
  /** "ownerNode" */
  const OWNER_NODE: Key := [111, 119, 110, 101, 114, 78, 111, 100, 101]

  /** Prefix, key, equals sign and value, each as it reads. */
  predicate TagReads(tag: bytes, key: string, value: bytes) {
    && |tag| == 26 + |key| + |value|
    && Spells(tag[..25], "csi-sanlock-lvm.vleo.net/") && Spells(tag[25..25 + |key|], key)
    && tag[25 + |key|] as char == '=' && tag[26 + |key|..] == value
  }

  /** The owner tags of a node whose number and name need no quoting. */
  lemma OwnerTagText(value: bytes)
    requires forall i :: 0 <= i < |value| ==> LvmTagChar(value[i]) && value[i] as char != '&'
    ensures TagReads(EncodeKV(OWNER_ID, value), "ownerId", value)
    ensures TagReads(EncodeKV(OWNER_NODE, value), "ownerNode", value)
  {
    hide EncodeKV;
    hide LvmTagChar;
    hide Spells;
    OwnerKeyTexts();
    PlainTag(OWNER_ID, value);
    PlainTag(OWNER_NODE, value);
  }

  lemma OwnerKeyTexts()
    ensures Spells(OWNER_ID, "ownerId") && Spells(OWNER_NODE, "ownerNode")
    ensures forall i :: 0 <= i < |OWNER_ID| ==> LvmTagChar(OWNER_ID[i]) && OWNER_ID[i] as char != '&'
    ensures forall i :: 0 <= i < |OWNER_NODE| ==> LvmTagChar(OWNER_NODE[i]) && OWNER_NODE[i] as char != '&'
  {
  }

  /** The tag to delete for one key: the present one, when it is not the wanted one. */
  function Stale(m: TagMap, k: Key, want: Option<bytes>): seq<bytes> {
    if k in m && (want.None? || m[k] != want.value) then [EncodeKV(k, m[k])] else []
  }

  function Wanted(k: Key, want: Option<bytes>): seq<bytes> {
    if want.Some? then [EncodeKV(k, want.value)] else []
  }

  /** The lists that setOwner passes to lvchange as --deltag and --addtag. */
  function DelTags(m: TagMap, id: Option<bytes>, node: Option<bytes>): seq<bytes> {
    Stale(m, OWNER_ID, id) + Stale(m, OWNER_NODE, node)
  }

  function AddTags(id: Option<bytes>, node: Option<bytes>): seq<bytes> {
    Wanted(OWNER_ID, id) + Wanted(OWNER_NODE, node)
  }

  method SetOwner(tags: seq<bytes>, id: Option<bytes>, node: Option<bytes>) returns (ok: bool, del: seq<bytes>, add: seq<bytes>)
    ensures ok <==> DecodeAll(tags).Some?
    ensures ok ==> del == DelTags(DecodeAll(tags).value, id, node) && add == AddTags(id, node)
    ensures !ok ==> del == [] && add == []
  {
    hide EncodeKV;
    hide DecodeAll;
    del, add := [], [];
    var decoded := DecodeTags(tags);
    if decoded.None? {
      return false, [], [];
    }
    var m := decoded.value;
    if OWNER_ID in m && (id.None? || m[OWNER_ID] != id.value) {
      del := del + [EncodeKV(OWNER_ID, m[OWNER_ID])];
    }
    if OWNER_NODE in m && (node.None? || m[OWNER_NODE] != node.value) {
      del := del + [EncodeKV(OWNER_NODE, m[OWNER_NODE])];
    }
    if id.Some? {
      add := add + [EncodeKV(OWNER_ID, id.value)];
    }
    if node.Some? {
      add := add + [EncodeKV(OWNER_NODE, node.value)];
    }
    ok := true;
  }

  /** The set of tags of a volume carries exactly the pairs of m, as encodeTagKV writes them. */
  ghost predicate Carries(tags: set<bytes>, m: TagMap) {
    && (forall t :: t in tags && Ours(t) ==> exists k :: k in m && t == EncodeKV(k, m[k]))
    && (forall k :: k in m ==> EncodeKV(k, m[k]) in tags)
  }

  function Assign(m: TagMap, k: Key, want: Option<bytes>): TagMap {
    if want.Some? then m[k := want.value] else m - {k}
  }

  /** The map that a caller of setOwner asked for. */
  function Requested(m: TagMap, id: Option<bytes>, node: Option<bytes>): TagMap {
    Assign(Assign(m, OWNER_ID, id), OWNER_NODE, node)
  }

  function ToSet(s: seq<bytes>): set<bytes> {
    set t | t in s
  }

  function Changed(tags: set<bytes>, del: seq<bytes>, add: seq<bytes>): set<bytes> {
    tags - ToSet(del) + ToSet(add)
  }

  predicate GoodOwner(want: Option<bytes>) {
    want.Some? ==> Quotable(want.value)
  }

  /** One key at a time: the tags carry the map with that key assigned. */
  lemma AssignCarries(tags: set<bytes>, m: TagMap, k: Key, want: Option<bytes>)
    requires GoodMap(m) && Carries(tags, m) && GoodKey(k) && Quotable(k) && GoodOwner(want)
    ensures GoodMap(Assign(m, k, want))
    ensures Carries(Changed(tags, Stale(m, k, want), Wanted(k, want)), Assign(m, k, want))
  {
    hide EncodeKV;
    hide Ours;
    var m', tags' := Assign(m, k, want), Changed(tags, Stale(m, k, want), Wanted(k, want));
    forall t | t in tags' && Ours(t)
      ensures exists j :: j in m' && t == EncodeKV(j, m'[j])
    {
      if want.Some? && t == EncodeKV(k, want.value) {
        assert k in m';
      } else {
        assert t in tags;
        var j :| j in m && t == EncodeKV(j, m[j]);
        assert j != k;
        assert j in m' && m'[j] == m[j];
      }
    }
    forall j | j in m'
      ensures EncodeKV(j, m'[j]) in tags'
    {
      if j != k {
        assert m'[j] == m[j] && EncodeKV(j, m[j]) in tags;
        if k in m { KVDifferent(j, m[j], k, m[k]); }
      }
    }
  }

  lemma OwnerKeys()
    ensures OWNER_ID != OWNER_NODE
    ensures GoodKey(OWNER_ID) && Quotable(OWNER_ID) && GoodKey(OWNER_NODE) && Quotable(OWNER_NODE)
  {
  }

  lemma StaleOther(m: TagMap, k: Key, want: Option<bytes>, k': Key, want': Option<bytes>)
    requires k != k'
    ensures Stale(Assign(m, k, want), k', want') == Stale(m, k', want')
  {
  }

  /**
   After a successful setOwner the tags carry the requested owner and every other pair as before,
   each key once, and the tags of others are untouched; the lists share no tag, so the order in
   which LVM applies them does not matter.
   */
  lemma OwnerUpdate(tags: set<bytes>, m: TagMap, id: Option<bytes>, node: Option<bytes>)
    requires GoodMap(m) && Carries(tags, m) && GoodOwner(id) && GoodOwner(node)
    ensures var del, add := DelTags(m, id, node), AddTags(id, node);
            var tags' := Changed(tags, del, add);
            && GoodMap(Requested(m, id, node)) && Carries(tags', Requested(m, id, node))
            && (forall t :: !Ours(t) ==> (t in tags' <==> t in tags))
            && ToSet(del) !! ToSet(add)
            && tags' == tags + ToSet(add) - ToSet(del)
  {
    hide EncodeKV;
    hide Ours;
    OwnerKeys();
    var m1 := Assign(m, OWNER_ID, id);
    var tags1 := Changed(tags, Stale(m, OWNER_ID, id), Wanted(OWNER_ID, id));
    AssignCarries(tags, m, OWNER_ID, id);
    AssignCarries(tags1, m1, OWNER_NODE, node);
    StaleOther(m, OWNER_ID, id, OWNER_NODE, node);
    OwnerListsApart(m, id, node);
    OwnerListsOurs(m, id, node);
    var del, add := DelTags(m, id, node), AddTags(id, node);
    assert Changed(tags, del, add) == Changed(tags1, Stale(m1, OWNER_NODE, node), Wanted(OWNER_NODE, node)) by {
      SetsOfLists(m, id, node);
    }
  }

  lemma SetsOfLists(m: TagMap, id: Option<bytes>, node: Option<bytes>)
    ensures ToSet(DelTags(m, id, node)) == ToSet(Stale(m, OWNER_ID, id)) + ToSet(Stale(m, OWNER_NODE, node))
    ensures ToSet(AddTags(id, node)) == ToSet(Wanted(OWNER_ID, id)) + ToSet(Wanted(OWNER_NODE, node))
  {
  }

  lemma OwnerListsOurs(m: TagMap, id: Option<bytes>, node: Option<bytes>)
    ensures forall t :: t in DelTags(m, id, node) + AddTags(id, node) ==> Ours(t)
  {
    hide EncodeKV;
    hide Ours;
    forall k, v ensures Ours(EncodeKV(k, v)) { OursKV(k, v); }
  }

  lemma OwnerListsApart(m: TagMap, id: Option<bytes>, node: Option<bytes>)
    requires GoodMap(m) && GoodOwner(id) && GoodOwner(node)
    ensures ToSet(DelTags(m, id, node)) !! ToSet(AddTags(id, node))
  {
    hide EncodeKV;
    OwnerKeys();
    forall k, v, k', v' | GoodPair(k, v) && GoodPair(k', v') && (k != k' || v != v')
      ensures EncodeKV(k, v) != EncodeKV(k', v')
    {
      if EncodeKV(k, v) == EncodeKV(k', v') { KVInjective(k, v, k', v'); }
    }
  }

  /** GetOwner's reading of such a volume: any listing of its tags decodes to the carried map. */
  lemma CarriedDecodes(tags: set<bytes>, m: TagMap, listing: seq<bytes>)
    requires GoodMap(m) && Carries(tags, m)
    requires ToSet(listing) == tags && forall i, j :: 0 <= i < j < |listing| ==> listing[i] != listing[j]
    ensures DecodeAll(listing) == Some(m)
  {
    hide EncodeKV;
    hide Ours;
    forall i | 0 <= i < |listing| && Ours(listing[i])
      ensures exists k :: k in m && listing[i] == EncodeKV(k, m[k])
    {
      assert listing[i] in ToSet(listing);
    }
    forall k | k in m ensures EncodeKV(k, m[k]) in listing {
      assert EncodeKV(k, m[k]) in ToSet(listing);
    }
    DecodeListed(listing, m);
  }
}
