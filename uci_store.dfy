// The configuration snapshot the client view reads through uci.sections,
// and the verdicts its validate callbacks return.

module UciStore {
  import opened JsText

  /**
   * One uci section as uci.sections yields it: its '.name', its type and its
   * options. An option that is not set reads as undefined (None).
   */
  datatype Section = Section(name: string, stype: string, options: map<string, string>)

  /** The sections of the loaded 'homeproxy' configuration, in store order. */
  type Store = seq<Section>

  const RoutingNodeType := "routing_node"
  const DnsServerType := "dns_server"
  const ProxyNodeType := "node"

  function Get(s: Section, option: string): Option<string>
  {
    if option in s.options then Some(s.options[option]) else None
  }

  /** `res.enabled === '1'` */
  predicate Enabled(s: Section)
  {
    Get(s, "enabled") == Some("1")
  }

  /** The tag of a DNS server section, as the candidate lists write it. */
  function DnsTag(name: string): string
  {
    name + "-dns"
  }

  lemma DnsTagInjective(a: string, b: string)
    requires DnsTag(a) == DnsTag(b)
    ensures a == b
  {
    assert |a| == |b|;
    assert a == DnsTag(a)[..|a|];
    assert b == DnsTag(b)[..|b|];
  }

  /** JavaScript truthiness of a string that may be null or undefined. */
  predicate Truthy(v: Option<string>)
  {
    v.Some? && v.value != ""
  }

  /**
   * `a === b` between a stored option (None: undefined) and a form value
   * (None: null); undefined and null are not strictly equal.
   */
  predicate StrictEqual(a: Option<string>, b: Option<string>)
  {
    a.Some? && b.Some? && a.value == b.value
  }

  /** What a validate callback reports: `true` or the kind of its message. */
  datatype ErrorKind =
    | InvalidPortRange
    | InvalidPort
    | DuplicatePort(port: int)
    | InvalidAddress
    | RequiredFieldEmpty
    | NodeTaken
    | RecursiveOutbound
    | RecursiveResolver

  datatype Verdict = Valid | Invalid(error: ErrorKind)
}
