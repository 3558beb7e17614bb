// The candidate lists of the client view's reference fields. Each of the
// eight ListValue/MultiValue options below rebuilds its keylist and vallist
// every time the form loads: the built-in targets first, in a fixed order,
// then one entry per enabled section of the routing_node or dns_server
// collection, in store order.

module CandidateLists {
  import opened JsText
  import opened UciStore

  /** The options whose load is overridden to rebuild their candidates. */
  datatype CandidateField =
    | DefaultOutbound       // routing.default_outbound
    | RoutingNodeOutbound   // routing_node.outbound
    | RoutingRuleOutbound   // routing_rule.outbound
    | DefaultServer         // dns.default_server
    | AddressResolver       // dns_server.address_resolver
    | DnsServerOutbound     // dns_server.outbound
    | DnsRuleOutbound       // dns_rule.outbound
    | DnsRuleServer         // dns_rule.server

  /** One entry of a list: a key and the caption shown for it (None: undefined). */
  datatype Choice = Choice(key: Option<string>, caption: Option<string>)

  /** The built-in targets of each field, in the order the view adds them. */
  function Sentinels(f: CandidateField): seq<Choice>
  {
    match f
    case DefaultOutbound =>
      [Choice(Some("nil"), Some("Disable")), Choice(Some("direct-out"), Some("Direct")),
       Choice(Some("block-out"), Some("Block"))]
    case RoutingNodeOutbound =>
      [Choice(Some(""), Some("Default")), Choice(Some("direct-out"), Some("Direct"))]
    case RoutingRuleOutbound =>
      [Choice(Some("direct-out"), Some("Direct")), Choice(Some("block-out"), Some("Block"))]
    case DefaultServer =>
      [Choice(Some("local-dns"), Some("System DNS resolver"))]
    case AddressResolver =>
      [Choice(Some(""), Some("None")), Choice(Some("local-dns"), Some("System DNS resolver"))]
    case DnsServerOutbound =>
      [Choice(Some("direct-out"), Some("Direct"))]
    case DnsRuleOutbound =>
      [Choice(Some("direct-out"), Some("Direct")), Choice(Some("block-out"), Some("Block"))]
    case DnsRuleServer =>
      [Choice(Some("local-dns"), Some("System DNS resolver")), Choice(Some("block-dns"), Some("Block DNS queries"))]
  }

  /** The fields whose records are DNS servers; all others list routing nodes. */
  predicate ListsDnsServers(f: CandidateField)
  {
    f == DefaultServer || f == AddressResolver || f == DnsRuleServer
  }

  function Collection(f: CandidateField): string
  {
    if ListsDnsServers(f) then DnsServerType else RoutingNodeType
  }

  /** The two fields that leave out the section being edited. */
  predicate ExcludesSelf(f: CandidateField)
  {
    f == RoutingNodeOutbound || f == AddressResolver
  }

  /** Section s appears in the list of f loaded for section self. */
  predicate Offered(f: CandidateField, s: Section, self: string)
  {
    s.stype == Collection(f) && Enabled(s) && !(ExcludesSelf(f) && s.name == self)
  }

  /** The entry of a section: its node for routing nodes, its tag for DNS servers. */
  function Entry(f: CandidateField, s: Section): Choice
  {
    if ListsDnsServers(f) then Choice(Some(DnsTag(s.name)), Get(s, "label"))
    else Choice(Get(s, "node"), Get(s, "label"))
  }

  /** The entries of the offered sections, in store order. */
  function Entries(f: CandidateField, store: Store, self: string): seq<Choice>
  {
    if store == [] then []
    else (if Offered(f, store[0], self) then [Entry(f, store[0])] else []) + Entries(f, store[1..], self)
  }

  /** The whole list of f after a load for section self. */
  function Candidates(f: CandidateField, store: Store, self: string): seq<Choice>
  {
    Sentinels(f) + Entries(f, store, self)
  }

  function Keys(cs: seq<Choice>): (ks: seq<Option<string>>)
    ensures |ks| == |cs| && forall i :: 0 <= i < |cs| ==> ks[i] == cs[i].key
  {
    seq(|cs|, i requires 0 <= i < |cs| => cs[i].key)
  }

  function Captions(cs: seq<Choice>): (vs: seq<Option<string>>)
    ensures |vs| == |cs| && forall i :: 0 <= i < |cs| ==> vs[i] == cs[i].caption
  {
    seq(|cs|, i requires 0 <= i < |cs| => cs[i].caption)
  }

  // ---------------------------------------------------------------------
  // Lemmas

  lemma KeysCaptionsAppend(a: seq<Choice>, b: seq<Choice>)
    ensures Keys(a + b) == Keys(a) + Keys(b)
    ensures Captions(a + b) == Captions(a) + Captions(b)
  {
  }

  /** Entries follows store order: the entries of a + b are those of a, then those of b. */
  lemma {:induction false} EntriesAppend(f: CandidateField, a: Store, b: Store, self: string)
    ensures Entries(f, a + b, self) == Entries(f, a, self) + Entries(f, b, self)
  {
    if a == [] {
      assert a + b == b;
    } else {
      assert (a + b)[0] == a[0];
      assert (a + b)[1..] == a[1..] + b;
      EntriesAppend(f, a[1..], b, self);
    }
  }

  /** Loading one more section appends its entry, if it is offered. */
  lemma EntriesStep(f: CandidateField, store: Store, k: nat, self: string)
    requires k < |store|
    ensures Entries(f, store[..k + 1], self)
            == Entries(f, store[..k], self) + (if Offered(f, store[k], self) then [Entry(f, store[k])] else [])
  {
    assert store[..k + 1] == store[..k] + [store[k]];
    EntriesAppend(f, store[..k], [store[k]], self);
  }

  /** A key is listed from the store exactly when an offered section has it as its entry. */
  lemma {:induction false} EntryKeys(f: CandidateField, store: Store, self: string, key: Option<string>)
    ensures key in Keys(Entries(f, store, self)) <==>
              exists i :: 0 <= i < |store| && Offered(f, store[i], self) && Entry(f, store[i]).key == key
  {
    if store != [] {
      EntryKeys(f, store[1..], self, key);
      var head := if Offered(f, store[0], self) then [Entry(f, store[0])] else [];
      assert Entries(f, store, self) == head + Entries(f, store[1..], self);
      KeysCaptionsAppend(head, Entries(f, store[1..], self));
      assert key in Keys(head) <==> Offered(f, store[0], self) && Entry(f, store[0]).key == key;
      if exists i :: 1 <= i < |store| && Offered(f, store[i], self) && Entry(f, store[i]).key == key {
        var i :| 1 <= i < |store| && Offered(f, store[i], self) && Entry(f, store[i]).key == key;
        assert store[1..][i - 1] == store[i];
      }
      if exists i :: 0 <= i < |store[1..]| && Offered(f, store[1..][i], self) && Entry(f, store[1..][i]).key == key {
        var i :| 0 <= i < |store[1..]| && Offered(f, store[1..][i], self) && Entry(f, store[1..][i]).key == key;
        assert store[i + 1] == store[1..][i];
      }
    }
  }

  /**
   * What a load offers: the field's built-in keys, and the key of every
   * enabled section of its collection, the edited section left out where
   * the field excludes it.
   */
  lemma CandidateKeys(f: CandidateField, store: Store, self: string, key: Option<string>)
    ensures key in Keys(Candidates(f, store, self)) <==>
              key in Keys(Sentinels(f))
              || exists i :: 0 <= i < |store| && Offered(f, store[i], self) && Entry(f, store[i]).key == key
  {
    assert Keys(Candidates(f, store, self)) == Keys(Sentinels(f)) + Keys(Entries(f, store, self));
    EntryKeys(f, store, self, key);
  }

  /**
   * Disabling the one section that offers a key withdraws that key, unless
   * it is also a built-in of the field.
   */
  lemma DisablingWithdraws(f: CandidateField, store: Store, self: string, i: nat, key: Option<string>)
    requires i < |store| && Entry(f, store[i]).key == key
    requires key !in Keys(Sentinels(f))
    requires forall j :: 0 <= j < |store| && j != i && Offered(f, store[j], self) ==> Entry(f, store[j]).key != key
    ensures var off := store[i].(options := store[i].options["enabled" := "0"]);
            key !in Keys(Candidates(f, store[i := off], self))
  {
    var off := store[i].(options := store[i].options["enabled" := "0"]);
    var store' := store[i := off];
    assert !Enabled(off) by { assert Get(off, "enabled") == Some("0"); }
    CandidateKeys(f, store', self, key);
    forall j | 0 <= j < |store'| && Offered(f, store'[j], self)
      ensures Entry(f, store'[j]).key != key
    {
      assert j != i && store'[j] == store[j];
    }
  }

  /** The address resolver of a DNS server never lists the server itself. */
  lemma AddressResolverOmitsSelf(store: Store, self: string)
    ensures forall c :: c in Entries(AddressResolver, store, self) ==> c.key != Some(DnsTag(self))
  {
    forall c | c in Entries(AddressResolver, store, self)
      ensures c.key != Some(DnsTag(self))
    {
      var ks := Keys(Entries(AddressResolver, store, self));
      var n :| 0 <= n < |Entries(AddressResolver, store, self)| && Entries(AddressResolver, store, self)[n] == c;
      assert c.key in ks by { assert ks[n] == c.key; }
      EntryKeys(AddressResolver, store, self, c.key);
      var i :| 0 <= i < |store| && Offered(AddressResolver, store[i], self) && Entry(AddressResolver, store[i]).key == c.key;
      if c.key == Some(DnsTag(self)) {
        DnsTagInjective(store[i].name, self);
      }
    }
  }

  // ---------------------------------------------------------------------
  // The option objects whose load rebuilds the lists

  class ListOption {
    const field: CandidateField
    var keylist: seq<Option<string>>
    var vallist: seq<Option<string>>

    constructor (f: CandidateField)
      ensures field == f && keylist == [] && vallist == []
    {
      field := f;
      keylist := [];
      vallist := [];
    }

    /** LuCI's value(key, caption): appends one entry. */
    method Value(key: Option<string>, caption: Option<string>)
      modifies this
      ensures keylist == old(keylist) + [key] && vallist == old(vallist) + [caption]
    {
      keylist := keylist + [key];
      vallist := vallist + [caption];
    }

    /** Adds the built-in targets of the field, in the view's order. */
    method AddSentinels()
      modifies this
      ensures keylist == old(keylist) + Keys(Sentinels(field))
      ensures vallist == old(vallist) + Captions(Sentinels(field))
    {
      var builtins := Sentinels(field);
      var k := 0;
      while k < |builtins|
        invariant 0 <= k <= |builtins|
        invariant keylist == old(keylist) + Keys(builtins[..k])
        invariant vallist == old(vallist) + Captions(builtins[..k])
      {
        assert builtins[..k + 1] == builtins[..k] + [builtins[k]];
        Value(builtins[k].key, builtins[k].caption);
        k := k + 1;
      }
      assert builtins[..k] == builtins;
    }

    /**
     * The overridden load: forget the old lists, add the built-ins, then
     * walk the store and add every offered section.
     */
    method Load(store: Store, sectionId: string)
      modifies this
      ensures keylist == Keys(Candidates(field, store, sectionId))
      ensures vallist == Captions(Candidates(field, store, sectionId))
    {
      keylist := [];
      vallist := [];
      AddSentinels();
      var k := 0;
      while k < |store|
        invariant 0 <= k <= |store|
        invariant keylist == Keys(Sentinels(field)) + Keys(Entries(field, store[..k], sectionId))
        invariant vallist == Captions(Sentinels(field)) + Captions(Entries(field, store[..k], sectionId))
      {
        var res := store[k];
        EntriesStep(field, store, k, sectionId);
        ghost var offered := if Offered(field, res, sectionId) then [Entry(field, res)] else [];
        KeysCaptionsAppend(Entries(field, store[..k], sectionId), offered);
        if Offered(field, res, sectionId) {
          var e := Entry(field, res);
          Value(e.key, e.caption);
        }
        k := k + 1;
      }
      assert store[..k] == store;
      KeysCaptionsAppend(Sentinels(field), Entries(field, store, sectionId));
    }
  }
}
