// The validate callbacks that look at other sections of the configuration:
// the node of a routing node must not be taken, and neither the outbound of
// a routing node nor the address resolver of a DNS server may point straight
// back at a section that points at it.

module ReferenceChecks {
  import opened JsText
  import opened UciStore

  // ---------------------------------------------------------------------
  // routing_node.node

  /** Section s is a routing node other than self whose node is value. */
  predicate HoldsNode(s: Section, self: string, value: string)
  {
    s.stype == RoutingNodeType && s.name != self && Get(s, "node") == Some(value)
  }

  /** Some routing node other than self, enabled or not, already uses value as its node. */
  predicate NodeTakenElsewhere(store: Store, self: string, value: string)
  {
    exists k :: 0 <= k < |store| && HoldsNode(store[k], self, value)
  }

  /** The validate callback of routing_node.node. */
  method ValidateRoutingNodeNode(store: Store, sectionId: Option<string>, value: Option<string>)
    returns (r: Verdict)
    ensures !Truthy(sectionId) ==> r == Valid
    ensures Truthy(sectionId) && !Truthy(value) ==> r == Invalid(RequiredFieldEmpty)
    ensures Truthy(sectionId) && Truthy(value) ==>
              (r == Invalid(NodeTaken) <==> NodeTakenElsewhere(store, sectionId.value, value.value))
              && (r == Valid <==> !NodeTakenElsewhere(store, sectionId.value, value.value))
  {
    if Truthy(sectionId) {
      if value == None || value == Some("") {
        return Invalid(RequiredFieldEmpty);
      }
      var duplicate := false;
      var k := 0;
      while k < |store|
        invariant 0 <= k <= |store|
        invariant duplicate <==> exists j :: 0 <= j < k && HoldsNode(store[j], sectionId.value, value.value)
      {
        var res := store[k];
        if res.stype == RoutingNodeType {
          if res.name != sectionId.value {
            if Get(res, "node") == value {
              duplicate := true;
            }
          }
        }
        k := k + 1;
      }
      if duplicate {
        return Invalid(NodeTaken);
      }
    }
    return Valid;
  }

  /**
   * Only the name, the type and the node option of each section matter:
   * 'enabled' and 'outbound' play no part in the node check.
   */
  lemma NodeCheckReadsOnlyNodes(store: Store, store': Store, self: string, value: string)
    requires |store| == |store'|
    requires forall k :: 0 <= k < |store| ==>
               store[k].name == store'[k].name && store[k].stype == store'[k].stype
               && Get(store[k], "node") == Get(store'[k], "node")
    ensures NodeTakenElsewhere(store, self, value) <==> NodeTakenElsewhere(store', self, value)
  {
    if NodeTakenElsewhere(store, self, value) {
      var k :| 0 <= k < |store| && HoldsNode(store[k], self, value);
      assert HoldsNode(store'[k], self, value);
    }
    if NodeTakenElsewhere(store', self, value) {
      var k :| 0 <= k < |store'| && HoldsNode(store'[k], self, value);
      assert HoldsNode(store[k], self, value);
    }
  }

  /** The node stored in the section being edited never counts against it. */
  lemma NodeCheckIgnoresSelf(store: Store, i: nat, s: Section, self: string, value: string)
    requires i < |store| && store[i].name == self && s.name == self
    ensures NodeTakenElsewhere(store[i := s], self, value) <==> NodeTakenElsewhere(store, self, value)
  {
    var store' := store[i := s];
    if NodeTakenElsewhere(store, self, value) {
      var k :| 0 <= k < |store| && HoldsNode(store[k], self, value);
      assert k != i && store'[k] == store[k];
      assert HoldsNode(store'[k], self, value);
    }
    if NodeTakenElsewhere(store', self, value) {
      var k :| 0 <= k < |store'| && HoldsNode(store'[k], self, value);
      assert k != i && store'[k] == store[k];
    }
  }

  /** A disabled routing node still takes its node. */
  lemma DisabledHolderStillTakes(a: Section, self: string)
    requires a == Section("rn1", RoutingNodeType, map["enabled" := "0", "node" := "hk-out"])
    requires self != "rn1"
    ensures NodeTakenElsewhere([a], self, "hk-out")
  {
    assert HoldsNode([a][0], self, "hk-out");
  }

  // ---------------------------------------------------------------------
  // routing_node.outbound

  /**
   * Section s is a routing node other than self that routes through the
   * node self is being given (its outbound is that node) and whose own
   * node is the outbound self is being given.
   */
  predicate PointsBack(s: Section, self: string, node: Option<string>, value: string)
  {
    s.stype == RoutingNodeType && s.name != self
    && StrictEqual(Get(s, "outbound"), node) && Get(s, "node") == Some(value)
  }

  predicate OutboundConflict(store: Store, self: string, node: Option<string>, value: string)
  {
    exists k :: 0 <= k < |store| && PointsBack(store[k], self, node, value)
  }

  /**
   * The validate callback of routing_node.outbound; node is the current
   * form value of the same section's node option (None: null).
   */
  method ValidateRoutingNodeOutbound(store: Store, sectionId: Option<string>, node: Option<string>,
                                     value: Option<string>)
    returns (r: Verdict)
    ensures !(Truthy(sectionId) && Truthy(value)) ==> r == Valid
    ensures Truthy(sectionId) && Truthy(value) ==>
              (r == Invalid(RecursiveOutbound) <==> OutboundConflict(store, sectionId.value, node, value.value))
              && (r == Valid <==> !OutboundConflict(store, sectionId.value, node, value.value))
  {
    if Truthy(sectionId) && Truthy(value) {
      var conflict := false;
      var k := 0;
      while k < |store|
        invariant 0 <= k <= |store|
        invariant conflict <==> exists j :: 0 <= j < k && PointsBack(store[j], sectionId.value, node, value.value)
      {
        var res := store[k];
        if res.stype == RoutingNodeType {
          if res.name != sectionId.value {
            if StrictEqual(Get(res, "outbound"), node) && Get(res, "node") == value {
              conflict := true;
            }
          }
        }
        k := k + 1;
      }
      if conflict {
        return Invalid(RecursiveOutbound);
      }
    }
    return Valid;
  }

  /**
   * Two routing nodes that route through each other are caught whichever of
   * the two is edited last.
   */
  lemma TwoNodeLoopDetected(store: Store, i: nat, j: nat, a: string, b: string)
    requires i < |store| && j < |store| && store[i].name != store[j].name
    requires store[i].stype == RoutingNodeType && store[j].stype == RoutingNodeType
    requires Get(store[i], "node") == Some(a) && Get(store[i], "outbound") == Some(b)
    requires Get(store[j], "node") == Some(b) && Get(store[j], "outbound") == Some(a)
    ensures OutboundConflict(store, store[i].name, Some(a), b)
    ensures OutboundConflict(store, store[j].name, Some(b), a)
  {
    assert PointsBack(store[j], store[i].name, Some(a), b);
    assert PointsBack(store[i], store[j].name, Some(b), a);
  }

  /**
   * The check looks one hop back only: closing a loop of three routing
   * nodes a -> b -> c -> a is not reported.
   */
  lemma ThreeNodeLoopMissed(store: Store)
    requires store == [
      Section("A", RoutingNodeType, map["node" := "a-out", "outbound" := "b-out"]),
      Section("B", RoutingNodeType, map["node" := "b-out", "outbound" := "c-out"]),
      Section("C", RoutingNodeType, map["node" := "c-out"])
    ]
    ensures !OutboundConflict(store, "C", Some("c-out"), "a-out")
  {
    forall k | 0 <= k < |store|
      ensures !PointsBack(store[k], "C", Some("c-out"), "a-out")
    {
      assert k == 0 || k == 1 || k == 2;
    }
  }

  // ---------------------------------------------------------------------
  // dns_server.address_resolver

  /**
   * Section s is a DNS server other than self whose address resolver is
   * self and whose own tag is the resolver self is being given.
   */
  predicate ResolvesThroughSelf(s: Section, self: string, value: string)
  {
    s.stype == DnsServerType && s.name != self
    && Get(s, "address_resolver") == Some(DnsTag(self)) && DnsTag(s.name) == value
  }

  predicate ResolverConflict(store: Store, self: string, value: string)
  {
    exists k :: 0 <= k < |store| && ResolvesThroughSelf(store[k], self, value)
  }

  /** The validate callback of dns_server.address_resolver. */
  method ValidateAddressResolver(store: Store, sectionId: Option<string>, value: Option<string>)
    returns (r: Verdict)
    ensures !(Truthy(sectionId) && Truthy(value)) ==> r == Valid
    ensures Truthy(sectionId) && Truthy(value) ==>
              (r == Invalid(RecursiveResolver) <==> ResolverConflict(store, sectionId.value, value.value))
              && (r == Valid <==> !ResolverConflict(store, sectionId.value, value.value))
  {
    if Truthy(sectionId) && Truthy(value) {
      var conflict := false;
      var k := 0;
      while k < |store|
        invariant 0 <= k <= |store|
        invariant conflict <==> exists j :: 0 <= j < k && ResolvesThroughSelf(store[j], sectionId.value, value.value)
      {
        var res := store[k];
        if res.stype == DnsServerType {
          if res.name != sectionId.value {
            if Get(res, "address_resolver") == Some(sectionId.value + "-dns") && res.name + "-dns" == value.value {
              conflict := true;
            }
          }
        }
        k := k + 1;
      }
      if conflict {
        return Invalid(RecursiveResolver);
      }
    }
    return Valid;
  }

  /** If x resolves through y, y may not resolve through x. */
  lemma TwoServerLoopDetected(store: Store, i: nat, y: string)
    requires i < |store| && store[i].stype == DnsServerType && store[i].name != y
    requires Get(store[i], "address_resolver") == Some(DnsTag(y))
    ensures ResolverConflict(store, y, DnsTag(store[i].name))
  {
    assert ResolvesThroughSelf(store[i], y, DnsTag(store[i].name));
  }

  /**
   * The system resolver 'local-dns' is refused only when a DNS server that
   * resolves through self is itself named 'local', whose tag is the same string.
   */
  lemma LocalDnsConflict(store: Store, self: string)
    ensures ResolverConflict(store, self, "local-dns") <==>
              exists k :: 0 <= k < |store| && store[k].name == "local" && store[k].stype == DnsServerType
                          && self != "local" && Get(store[k], "address_resolver") == Some(DnsTag(self))
  {
    forall k | 0 <= k < |store|
      ensures ResolvesThroughSelf(store[k], self, "local-dns") <==>
                store[k].name == "local" && store[k].stype == DnsServerType
                && self != "local" && Get(store[k], "address_resolver") == Some(DnsTag(self))
    {
      if DnsTag(store[k].name) == "local-dns" {
        assert DnsTag("local") == "local-dns";
        DnsTagInjective(store[k].name, "local");
      }
    }
  }
}
