/** The pagination of ListVolumes and ListSnapshots in pkg/driverd/controllerserver.go. */
module Pagination {
  import opened Options
  import opened Bytes
  import TagEncoder

  datatype Lv = Lv(vg: string, lv: string)

  predicate NameStart(c: char) {
    'a' <= c <= 'z' || 'A' <= c <= 'Z' || '0' <= c <= '9' || c == '+' || c == '_' || c == '.'
  }

  predicate NameChar(c: char) {
    NameStart(c) || c == '-'
  }

  /** One half of volumeIdRe. */
  predicate NameOk(s: string) {
    s != "" && NameStart(s[0]) && forall i :: 0 <= i < |s| ==> NameChar(s[i])
  }

  /** VolumeRef.ID. */
  function Id(v: Lv): string {
    v.lv + "@" + v.vg
  }

  function IndexAt(s: string): (i: int)
    ensures -1 <= i < |s|
    ensures i >= 0 ==> s[i] == '@' && forall k :: 0 <= k < i ==> s[k] != '@'
    ensures i == -1 ==> forall k :: 0 <= k < |s| ==> s[k] != '@'
  {
    if s == "" then -1
    else if s[0] == '@' then 0
    else
      var i := IndexAt(s[1..]);
      assert forall k :: 1 <= k < |s| ==> s[k] == s[1..][k - 1];
      if i == -1 then -1 else i + 1
  }

  /** volumeIdRe and NewVolumeRefFromID: both halves valid, so there is exactly one '@'. */
  function ParseToken(t: string): Option<Lv> {
    var i := IndexAt(t);
    if i >= 0 && NameOk(t[..i]) && NameOk(t[i + 1..]) then Some(Lv(t[i + 1..], t[..i])) else None
  }

  /** A token is the logical volume's name, '@' and the group's name, each the same characters in the same order. */
  lemma IdSpelled(v: Lv)
    ensures |Id(v)| == |v.lv| + 1 + |v.vg| && Id(v)[|v.lv|] == '@'
    ensures forall k :: 0 <= k < |v.lv| ==> Id(v)[k] == v.lv[k]
    ensures forall k :: 0 <= k < |v.vg| ==> Id(v)[|v.lv| + 1 + k] == v.vg[k]
    ensures Id(v)[..|v.lv|] == v.lv && Id(v)[|v.lv| + 1..] == v.vg
  {
  }

  /** Tokens name a volume unambiguously, and never look like "no token". */
  lemma TokenRoundTrip(v: Lv)
    requires NameOk(v.lv) && NameOk(v.vg)
    ensures ParseToken(Id(v)) == Some(v) && Id(v) != ""
  {
    var t := Id(v);
    IdSpelled(v);
    assert forall k :: 0 <= k < |v.lv| ==> NameChar(v.lv[k]);
    assert IndexAt(t) == |v.lv|;
  }

  /** The accepted tokens are the ids of volumes with valid names and nothing else. */
  lemma TokenIff(t: string, v: Lv)
    ensures ParseToken(t) == Some(v) <==> NameOk(v.lv) && NameOk(v.vg) && t == Id(v)
  {
    if NameOk(v.lv) && NameOk(v.vg) && t == Id(v) {
      TokenRoundTrip(v);
    }
    if ParseToken(t) == Some(v) {
      var i := IndexAt(t);
      assert t == t[..i] + [t[i]] + t[i + 1..];
    }
  }

  function Text(s: bytes): string {
    seq(|s|, i requires 0 <= i < |s| => s[i] as char)
  }

  /**
   LVM's rules for names and for tags agree: a name is accepted if and only if it is not empty, is a tag
   that needs no quoting, and has none of the five characters / = ! : # that only tags may have.
   */
  lemma NameIsTag(s: bytes)
    ensures NameOk(Text(s)) <==> s != [] && TagEncoder.Encode(s) == s && forall b :: b in s ==> b !in {47, 61, 33, 58, 35}
  {
    TagEncoder.EncodeFixedIff(s);
    var t := Text(s);
    forall i | 0 <= i < |s|
      ensures NameChar(t[i]) <==> TagEncoder.LvmTagChar(s[i]) && s[i] != 38 && s[i] !in {47, 61, 33, 58, 35}
    {
      assert t[i] == s[i] as char;
    }
    assert forall i :: 0 <= i < |s| ==> s[i] in s;
  }

  /** The base64 alphabet, by value: table 1 in section 4 of RFC 4648. */
  function Digit(i: nat): char
    requires i < 64
  {
    if i < 26 then 'A' + i as char
    else if i < 52 then 'a' + (i - 26) as char
    else if i < 62 then '0' + (i - 52) as char
    else if i == 62 then '+' else '/'
  }

  /** The digit for value i in a volume name, where '/' is replaced. */
  function NameDigit(i: nat): char
    requires i < 64
  {
    if Digit(i) == '/' then '_' else Digit(i)
  }

  /** The name NewVolumeRefFromVgTypeName makes from a prefix of volTypeToPrefix and the digest's sextets. */
  function GeneratedName(prefix: string, digest: seq<nat>): string
    requires forall i :: 0 <= i < |digest| ==> digest[i] < 64
  {
    prefix + seq(|digest|, i requires 0 <= i < |digest| => NameDigit(digest[i]))
  }

  /**
   Every name the driver makes is accepted back, so the tokens of its own volumes are never refused.
   */
  lemma GeneratedOk(prefix: string, digest: seq<nat>)
    requires prefix in {"csl-v-", "csl-s-", "csl-t-"}
    requires forall i :: 0 <= i < |digest| ==> digest[i] < 64
    ensures NameOk(GeneratedName(prefix, digest))
  {
    var name := GeneratedName(prefix, digest);
    assert prefix[0] == 'c';
    forall i | 0 <= i < |name| ensures NameChar(name[i]) {
      if i >= |prefix| {
        var d := digest[i - |prefix|];
        assert name[i] == NameDigit(d);
      }
    }
  }

  /** Digests with different sextets get different names: replacing '/' merges no two digits. */
  lemma GeneratedInjective(prefix: string, d: seq<nat>, e: seq<nat>)
    requires forall i :: 0 <= i < |d| ==> d[i] < 64
    requires forall i :: 0 <= i < |e| ==> e[i] < 64
    requires GeneratedName(prefix, d) == GeneratedName(prefix, e)
    ensures d == e
  {
    var m, n := GeneratedName(prefix, d), GeneratedName(prefix, e);
    assert |m| == |prefix| + |d| && |n| == |prefix| + |e|;
    forall i | 0 <= i < |d| ensures d[i] == e[i] {
      assert m[|prefix| + i] == NameDigit(d[i]) && n[|prefix| + i] == NameDigit(e[i]);
    }
  }

  datatype Page = Page(entries: seq<Lv>, next: string)

  /** v is at position i of the list and not before. */
  predicate FirstAt(lvs: seq<Lv>, v: Lv, i: nat) {
    i < |lvs| && lvs[i] == v && forall k :: 0 <= k < i ==> lvs[k] != v
  }

  /** The page that starts at i. */
  predicate IsPage(lvs: seq<Lv>, i: nat, max: int, p: Page) {
    && i <= |lvs|
    && var s := if max > 0 && i + max < |lvs| then i + max else |lvs|;
       p.entries == lvs[i..s] && p.next == if s < |lvs| then Id(lvs[s]) else ""
  }

  /** One call over the listed volumes; None is the error for a token that names none of them. */
  method List(lvs: seq<Lv>, token: string, max: int) returns (r: Option<Page>)
    ensures token == "" ==> r.Some? && IsPage(lvs, 0, max, r.value)
    ensures token != "" && r.Some? ==>
              ParseToken(token).Some? && exists i :: FirstAt(lvs, ParseToken(token).value, i) && IsPage(lvs, i, max, r.value)
    ensures token != "" && r.None? ==> ParseToken(token).None? || ParseToken(token).value !in lvs
  {
    var i, s := 0, |lvs|;
    if token != "" {
      var v := ParseToken(token);
      if v.None? {
        return None;
      }
      while i < |lvs|
        invariant 0 <= i <= |lvs|
        invariant forall k :: 0 <= k < i ==> lvs[k] != v.value
      {
        if lvs[i].vg == v.value.vg && lvs[i].lv == v.value.lv {
          break;
        }
        i := i + 1;
      }
      if i == s {
        return None;
      }
      assert FirstAt(lvs, v.value, i);
    }
    if max > 0 {
      s := if s < i + max then s else i + max;
    }
    ghost var start := i;
    var entries: seq<Lv> := [];
    while i < s
      invariant start <= i <= s <= |lvs|
      invariant entries == lvs[start..i]
    {
      entries := entries + [lvs[i]];
      i := i + 1;
    }
    var next := "";
    if s < |lvs| {
      next := Id(lvs[s]);
    }
    r := Some(Page(entries, next));
    assert IsPage(lvs, start, max, r.value);
  }

  function Flatten(pages: seq<seq<Lv>>): seq<Lv> {
    if pages == [] then [] else Flatten(pages[..|pages| - 1]) + pages[|pages| - 1]
  }

  predicate Distinct(lvs: seq<Lv>) {
    forall i, j :: 0 <= i < j < |lvs| ==> lvs[i] != lvs[j]
  }

  predicate Valid(lvs: seq<Lv>) {
    forall i :: 0 <= i < |lvs| ==> NameOk(lvs[i].lv) && NameOk(lvs[i].vg)
  }

  /** The call with the token of the volume at position `at` gives the page that starts there. */
  method Fetch(lvs: seq<Lv>, token: string, ghost at: nat, max: int) returns (page: Page)
    requires at < |lvs| && token == Id(lvs[at]) && Distinct(lvs) && Valid(lvs)
    ensures IsPage(lvs, at, max, page)
  {
    hide IsPage;
    hide ParseToken;
    TokenRoundTrip(lvs[at]);
    var r := List(lvs, token, max);
    assert lvs[at] in lvs;
    ghost var i :| FirstAt(lvs, lvs[at], i) && IsPage(lvs, i, max, r.value);
    assert i == at;
    page := r.value;
  }

  lemma FlattenAppend(pages: seq<seq<Lv>>, p: seq<Lv>)
    ensures Flatten(pages + [p]) == Flatten(pages) + p
  {
    assert (pages + [p])[..|pages|] == pages;
  }

  lemma PageStep(lvs: seq<Lv>, at: nat, max: int, page: Page)
    requires max > 0 && Valid(lvs) && IsPage(lvs, at, max, page)
    ensures page.next == "" <==> at + max >= |lvs|
    ensures page.next != "" ==> page.next == Id(lvs[at + max]) && |page.entries| == max
    ensures lvs[..at] + page.entries == if at + max < |lvs| then lvs[..at + max] else lvs
  {
    hide NameOk;
    hide Id;
    hide ParseToken;
    if at + max < |lvs| {
      TokenRoundTrip(lvs[at + max]);
    }
  }

  /**
   A client that follows NextToken over an unchanged list gets the whole list in order, without
   repeats or gaps, in ceil(n / max) pages, or one page for an empty list.
   */
  method FollowTokens(lvs: seq<Lv>, max: int) returns (pages: seq<seq<Lv>>)
    requires max > 0 && Distinct(lvs) && Valid(lvs)
    ensures Flatten(pages) == lvs
    ensures (|pages| - 1) * max < |lvs| <= |pages| * max || (lvs == [] && |pages| == 1)
    ensures forall i :: 0 <= i < |pages| - 1 ==> |pages[i]| == max
  {
    hide Flatten;
    hide IsPage;
    hide Id;
    hide Distinct;
    hide Valid;
    var r := List(lvs, "", max);
    var page := r.value;
    ghost var at := 0;
    pages := [];
    assert Flatten(pages) == [] by { FlattenNothing(); }
    assert lvs[..0] == [];
    while page.next != ""
      invariant 0 <= at <= |lvs| && IsPage(lvs, at, max, page)
      invariant Flatten(pages) == lvs[..at]
      invariant at == |pages| * max
      invariant at == 0 || at < |lvs|
      invariant forall i :: 0 <= i < |pages| ==> |pages[i]| == max
      decreases |lvs| - at
    {
      PageStep(lvs, at, max, page);
      FlattenAppend(pages, page.entries);
      NextMultiple(|pages|, max);
      pages := pages + [page.entries];
      at := at + max;
      page := Fetch(lvs, page.next, at, max);
    }
    PageStep(lvs, at, max, page);
    FlattenAppend(pages, page.entries);
    NextMultiple(|pages|, max);
    pages := pages + [page.entries];
  }

  lemma FlattenNothing()
    ensures Flatten([]) == []
  {
  }

  lemma NextMultiple(n: nat, max: int)
    ensures (n + 1) * max == n * max + max
  {
  }
}
