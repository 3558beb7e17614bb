// The captions of proxy nodes: the view caches, for every 'node' section,
// a label "[TYPE] DETAIL" under the section's name.

module ProxyNodes {
  import opened JsText
  import opened UciStore

  /** String(v) in JavaScript, for an option that may be undefined. */
  function JsString(v: Option<string>): string
  {
    if v.Some? then v.value else "undefined"
  }

  /** The protocol part: 'v2ray/<protocol>' for v2ray nodes, else the type. */
  function TypeTag(s: Section): (t: string)
    ensures Get(s, "type") == Some("v2ray") ==> t == "v2ray/" + JsString(Get(s, "v2ray_protocol"))
    ensures Get(s, "type") != Some("v2ray") ==> t == JsString(Get(s, "type"))
    ensures ']' !in JsString(Get(s, "type")) && ']' !in JsString(Get(s, "v2ray_protocol")) ==> ']' !in t
  {
    if Get(s, "type") == Some("v2ray") then "v2ray/" + JsString(Get(s, "v2ray_protocol"))
    else JsString(Get(s, "type"))
  }

  /** The node's own label when it is non-empty, else server:port. */
  function Detail(s: Section): (d: string)
    ensures Truthy(Get(s, "label")) ==> d == Get(s, "label").value
    ensures !Truthy(Get(s, "label")) ==> d == JsString(Get(s, "server")) + ":" + JsString(Get(s, "server_port"))
  {
    if Truthy(Get(s, "label")) then Get(s, "label").value
    else JsString(Get(s, "server")) + ":" + JsString(Get(s, "server_port"))
  }

  /**
   * The caption cached for a proxy node: '[%s] %s' over the tag and the
   * detail. It reads back into both whenever the tag has no ']' in it.
   */
  function ProxyNodeLabel(s: Section): (l: string)
    ensures ']' !in TypeTag(s) ==> ParseLabel(l) == Some((TypeTag(s), Detail(s)))
  {
    var l := "[" + TypeTag(s) + "] " + Detail(s);
    if ']' !in TypeTag(s) then (ParseLabelRoundTrip(TypeTag(s), Detail(s)); l) else l
  }

  /** The index of the first c in s, or |s| when there is none. */
  function FirstIndex(s: string, c: char): (i: nat)
    ensures i <= |s| && c !in s[..i] && (i < |s| ==> s[i] == c)
  {
    if s == [] then 0
    else if s[0] == c then 0
    else
      var j := FirstIndex(s[1..], c);
      assert s[..j + 1] == [s[0]] + s[1..][..j];
      j + 1
  }

  /** Reads a caption back into its tag and its detail, cut at the first ']'. */
  function ParseLabel(l: string): (r: Option<(string, string)>)
    ensures r.Some? ==> l == "[" + r.value.0 + "] " + r.value.1 && ']' !in r.value.0
  {
    if |l| >= 1 && l[0] == '[' then
      var i := FirstIndex(l[1..], ']') + 1;
      if i + 1 < |l| && l[i + 1] == ' ' then Some((l[1..i], l[i + 2..])) else None
    else None
  }

  lemma {:induction false} FirstIndexAt(a: string, c: char, b: string)
    requires c !in a
    ensures FirstIndex(a + [c] + b, c) == |a|
  {
    if a != [] {
      assert (a + [c] + b)[1..] == a[1..] + [c] + b;
      FirstIndexAt(a[1..], c, b);
    }
  }

  /** "[tag] detail" reads back into tag and detail when tag has no ']'. */
  lemma ParseLabelRoundTrip(tag: string, detail: string)
    requires ']' !in tag
    ensures ParseLabel("[" + tag + "] " + detail) == Some((tag, detail))
  {
    var l := "[" + tag + "] " + detail;
    assert l == "[" + (tag + "] " + detail);
    assert l[1..] == tag + [']'] + (" " + detail);
    FirstIndexAt(tag, ']', " " + detail);
    var i := |tag| + 1;
    assert l[1..i] == tag;
    assert l[i + 1] == ' ';
    assert l[i + 2..] == detail;
  }

  /** Two nodes of the same tag show the same caption exactly when their details agree. */
  lemma SameTagCaptions(s: Section, t: Section)
    requires TypeTag(s) == TypeTag(t)
    ensures ProxyNodeLabel(s) == ProxyNodeLabel(t) <==> Detail(s) == Detail(t)
  {
    var p := "[" + TypeTag(s) + "] ";
    assert ProxyNodeLabel(s) == p + Detail(s) && ProxyNodeLabel(t) == p + Detail(t);
    if ProxyNodeLabel(s) == ProxyNodeLabel(t) {
      assert Detail(s) == (p + Detail(s))[|p|..];
      assert Detail(t) == (p + Detail(t))[|p|..];
    }
  }

  /** No 'node' section after index i and before index k has the name of section i. */
  predicate LastNamedBefore(store: Store, i: nat, k: nat)
    requires i < k <= |store|
  {
    forall j :: i < j < k && store[j].stype == ProxyNodeType ==> store[j].name != store[i].name
  }

  /** The keys of the cache are the names of the first k sections that are proxy nodes. */
  ghost predicate CachedNames(nodes: map<string, string>, store: Store, k: nat)
    requires k <= |store|
  {
    forall n :: n in nodes <==> exists i :: 0 <= i < k && store[i].stype == ProxyNodeType && store[i].name == n
  }

  /**
   * Each name maps to the caption of the last proxy node among the first k
   * that has it.
   */
  predicate CachedLabels(nodes: map<string, string>, store: Store, k: nat, caption: Section -> string)
    requires k <= |store|
  {
    forall i :: 0 <= i < k && store[i].stype == ProxyNodeType && LastNamedBefore(store, i, k) ==>
      store[i].name in nodes && nodes[store[i].name] == caption(store[i])
  }

  /** Section k cached under its name, if it is a proxy node. */
  function CacheAt(nodes: map<string, string>, store: Store, k: nat, caption: Section -> string): map<string, string>
    requires k < |store|
  {
    if store[k].stype == ProxyNodeType then nodes[store[k].name := caption(store[k])] else nodes
  }

  /** The names stay right when section k is cached. */
  lemma CacheStepNames(nodes: map<string, string>, store: Store, k: nat, caption: Section -> string)
    requires k < |store| && CachedNames(nodes, store, k)
    ensures CachedNames(CacheAt(nodes, store, k, caption), store, k + 1)
  {
    var nodes' := CacheAt(nodes, store, k, caption);
    forall n
      ensures n in nodes' <==> exists i :: 0 <= i < k + 1 && store[i].stype == ProxyNodeType && store[i].name == n
    {
      if n in nodes' && !(store[k].stype == ProxyNodeType && store[k].name == n) {
        assert n in nodes;
      }
    }
  }

  /** The captions stay right when section k is cached: section k now wins its name. */
  lemma CacheStepLabels(nodes: map<string, string>, store: Store, k: nat, caption: Section -> string)
    requires k < |store| && CachedLabels(nodes, store, k, caption)
    ensures CachedLabels(CacheAt(nodes, store, k, caption), store, k + 1, caption)
  {
    var nodes' := CacheAt(nodes, store, k, caption);
    forall i | 0 <= i < k + 1 && store[i].stype == ProxyNodeType && LastNamedBefore(store, i, k + 1)
      ensures store[i].name in nodes' && nodes'[store[i].name] == caption(store[i])
    {
      if i < k {
        assert LastNamedBefore(store, i, k);
        assert store[k].stype == ProxyNodeType ==> store[k].name != store[i].name;
      }
    }
  }

  /**
   * The proxy_nodes cache: every 'node' section's name maps to its caption,
   * a later section of the same name overwriting an earlier one.
   */
  method CacheProxyNodes(store: Store) returns (nodes: map<string, string>)
    ensures CachedNames(nodes, store, |store|)
    ensures CachedLabels(nodes, store, |store|, ProxyNodeLabel)
  {
    nodes := map[];
    var k := 0;
    while k < |store|
      invariant 0 <= k <= |store|
      invariant CachedNames(nodes, store, k)
      invariant CachedLabels(nodes, store, k, ProxyNodeLabel)
    {
      var res := store[k];
      ghost var before := nodes;
      CacheStepNames(nodes, store, k, ProxyNodeLabel);
      CacheStepLabels(nodes, store, k, ProxyNodeLabel);
      if res.stype == ProxyNodeType {
        nodes := nodes[res.name := ProxyNodeLabel(res)];
      }
      assert nodes == CacheAt(before, store, k, ProxyNodeLabel);
      k := k + 1;
    }
  }
}
