# HomeProxy client view: validation and candidate lists

This project models the decision logic inside the LuCI client view of
HomeProxy (`htdocs/luci-static/resources/view/homeproxy/client.js`). That
logic validates the values a user enters for routing and DNS settings and
builds the candidate lists of the reference fields. It works on a snapshot
of the `homeproxy` uci configuration, which is an ordered sequence of
sections. Each section has a name, a type and string options.

The model has six modules, one file each:

- `JsText` (`js_text.dfy`): the JavaScript behaviour the validators rely on.
  This covers ASCII digit strings, `parseInt`, `Number.prototype.toString`,
  `split` and the `<` of two strings. That comparison goes code unit by code
  unit, so `"100" < "20"`. The view never joins strings; `Join` is there only
  to state that `Split` loses nothing.
- `UciStore` (`uci_store.dfy`): sections, option lookup (an option that is
  not set is `None`, which stands for `undefined`), the `enabled === '1'`
  test, JavaScript truthiness, the `-dns` tag of a DNS server, and verdicts.
  A verdict is `Valid` or `Invalid(kind)`. The kind names the message the
  callback would return.
- `FieldValidators` (`field_validators.dfy`): `validatePortRange`, the
  `routing_port` list validator (a loop over the tokens, as in the source)
  and the `dns_server` address validator.
- `ReferenceChecks` (`reference_checks.dfy`): the three validators that scan
  the other sections: node already taken, recursive outbound and recursive
  resolver. Each is a loop that sets a flag, as in the source, and is proved
  against a predicate over the whole store.
- `CandidateLists` (`candidate_lists.dfy`): the eight overridden `load`
  functions (lines 184-198, 268-281, 423-436, 454-466, 506-519, 546-558,
  676-689 and 694-707). A `ListOption` object has `keylist` and `vallist`
  fields. `Load` clears both, adds the field's built-in targets and then
  walks the store, one `value` call per entry. It is proved equal to the
  pure `Candidates` function, and the lemmas are stated about that function.
- `ProxyNodes` (`proxy_nodes.dfy`): the `[TYPE] DETAIL` caption of a proxy
  node and the loop that caches these captions by section name.

The model follows the code as written. Four places differ from a stricter
design:

- The node check rejects a node held by any other routing node, whether
  that node is enabled or not, and whatever its outbound.
- The outbound and resolver checks look one hop back only. A loop of three
  routing nodes is not reported (`ThreeNodeLoopMissed`).
- `validatePortRange` compares START and END as strings when both are
  given (see Findings).
- The candidate lists leave out disabled sections and, for two fields, the
  section being edited. They do not leave out targets that would close a
  loop.

## Model

| member | source | states |
|---|---|---|
| `JsText.JoinSplit` | htdocs/luci-static/resources/view/homeproxy/client.js:140 | splitting the routing_port value at commas and joining the tokens again gives back the value |
| `JsText.Split` | htdocs/luci-static/resources/view/homeproxy/client.js:140 | `split(',')` gives at least one part, and no part holds the separator |
| `JsText.ParseInt` | htdocs/luci-static/resources/view/homeproxy/client.js:141 | `parseInt` is NaN exactly when no digit follows the optional sign; on a canonical numeral it is the decimal value |
| `JsText.NatToStringCanonical` | htdocs/luci-static/resources/view/homeproxy/client.js:142 | `toString()` of a number is a canonical numeral with no leading zero, and its digits are worth that number |
| `JsText.CanonicalRoundTrip` | htdocs/luci-static/resources/view/homeproxy/client.js:142 | a canonical numeral is the `toString()` of its own value |
| `JsText.LexLessSameLength` | htdocs/luci-static/resources/view/homeproxy/client.js:54 | on digit strings of equal length, the string `<` agrees with numeric `<` |
| `UciStore.DnsTagInjective` | htdocs/luci-static/resources/view/homeproxy/client.js:462 | two different section names never give the same `-dns` tag |
| `FieldValidators.MatchPortRange` | htdocs/luci-static/resources/view/homeproxy/client.js:47 | a match means the value is its two groups, digits only, around one colon (an undefined group standing for "") |
| `FieldValidators.MatchPortRangeOf` | htdocs/luci-static/resources/view/homeproxy/client.js:47 | every string of digits, a colon and digits matches, with its two sides as the groups |
| `FieldValidators.JsLess` | htdocs/luci-static/resources/view/homeproxy/client.js:54 | `<` is numeric when a side is a number, and also agrees with numeric order on two digit strings of the same length |
| `FieldValidators.ValidatePortRange` | htdocs/luci-static/resources/view/homeproxy/client.js:45-62 | with no section id or an empty value the range is accepted; the only error is an invalid port range |
| `FieldValidators.PortRangeAsWritten` | htdocs/luci-static/resources/view/homeproxy/client.js:49-55 | START:END is accepted iff a side is given and: START missing gives 0 < END <= 65535; END missing gives START < 65535; both given gives START before END in string order and END <= 65535 |
| `FieldValidators.PortRangeShape` | htdocs/luci-static/resources/view/homeproxy/client.js:47-48 | an accepted range is two digit strings, not both empty, around exactly one colon |
| `FieldValidators.PortRangeExamples` | htdocs/luci-static/resources/view/homeproxy/client.js:49-55 | "100:200", "0:100", "1024:" and ":1024" are accepted; "200:100", "100:100", ":", ":65536", ":0" and "65536:" are rejected |
| `FieldValidators.PortRangeStringOrder` | htdocs/luci-static/resources/view/homeproxy/client.js:54 | as written, "100:20" is accepted and "9:10" rejected; the numeric reading decides both the other way |
| `FieldValidators.PortRangeAgreement` | htdocs/luci-static/resources/view/homeproxy/client.js:49-55 | the code as written and the numeric reading agree when a side is left out or both sides have as many digits |
| `FieldValidators.ParsePortRange` | htdocs/luci-static/resources/view/homeproxy/client.js:45-62 | a range read as numbers, with the defaults 0 and 65535, always has start < end <= 65535 |
| `FieldValidators.ValidatePortRangeNumeric` | htdocs/luci-static/resources/view/homeproxy/client.js:45-62 | the corrected validator accepts iff the guard is off or the value reads as a numeric range |
| `FieldValidators.ParseRenderPortRange` | htdocs/luci-static/resources/view/homeproxy/client.js:49-55 | rendering a range with 0 <= start < end <= 65535 as START:END and reading it back gives the same range |
| `FieldValidators.RenderParsePortRange` | htdocs/luci-static/resources/view/homeproxy/client.js:49-55 | every range read from a string renders to a string that reads back as the same range |
| `FieldValidators.PortTokenOk` | htdocs/luci-static/resources/view/homeproxy/client.js:141-143 | the parseInt/toString/1..65535 test passes iff the token is a canonical numeral of 1..65535: no sign, blank, leading zero or empty token |
| `FieldValidators.PortListVerdictMeaning` | htdocs/luci-static/resources/view/homeproxy/client.js:139-147 | the token-by-token reading accepts iff every token passes and is new, and otherwise names a fault at a token whose predecessors were all clean |
| `FieldValidators.CheckPortList` | htdocs/luci-static/resources/view/homeproxy/client.js:139-147 | the loop returns the verdict of the token-by-token reading, so it accepts iff every token is a port and none repeats an earlier one; otherwise it reports the first bad token, as an invalid port or as a duplicate naming its number |
| `FieldValidators.ValidateRoutingPort` | htdocs/luci-static/resources/view/homeproxy/client.js:134-151 | 'all', 'common' and a missing section id are accepted; null and '' are rejected; otherwise the verdict is that of the token loop over the comma-separated parts |
| `FieldValidators.AcceptedPortsDistinct` | htdocs/luci-static/resources/view/homeproxy/client.js:144-146 | an accepted list holds ports in 1..65535 that are pairwise different as numbers |
| `FieldValidators.ValidateDnsServer` | htdocs/luci-static/resources/view/homeproxy/client.js:166-172 | accepted iff 'local', 'wan' or an IPv4 or IPv6 literal, whatever the section id; otherwise an invalid address |
| `ReferenceChecks.ValidateRoutingNodeNode` | htdocs/luci-static/resources/view/homeproxy/client.js:231-248 | with a section id: an empty or null node is required-field-empty; a node that another routing node holds is taken; anything else is accepted |
| `ReferenceChecks.NodeCheckReadsOnlyNodes` | htdocs/luci-static/resources/view/homeproxy/client.js:237-241 | the node check depends only on each section's name, type and node, and not on 'enabled' or 'outbound' |
| `ReferenceChecks.NodeCheckIgnoresSelf` | htdocs/luci-static/resources/view/homeproxy/client.js:238 | whatever the edited section itself stores never changes the node check |
| `ReferenceChecks.DisabledHolderStillTakes` | htdocs/luci-static/resources/view/homeproxy/client.js:239-240 | a disabled routing node still takes its node |
| `ReferenceChecks.ValidateRoutingNodeOutbound` | htdocs/luci-static/resources/view/homeproxy/client.js:282-297 | with a section id and an outbound: rejected as recursive iff another routing node has the new outbound as its node and this section's node as its outbound |
| `ReferenceChecks.TwoNodeLoopDetected` | htdocs/luci-static/resources/view/homeproxy/client.js:287-290 | two routing nodes that route through each other are caught whichever of the two is edited |
| `ReferenceChecks.ThreeNodeLoopMissed` | htdocs/luci-static/resources/view/homeproxy/client.js:286-291 | closing a loop of three routing nodes is not reported: the check looks one hop back only |
| `ReferenceChecks.ValidateAddressResolver` | htdocs/luci-static/resources/view/homeproxy/client.js:520-533 | with a section id and a resolver: rejected iff another DNS server resolves through this one and has the new resolver as its tag |
| `ReferenceChecks.TwoServerLoopDetected` | htdocs/luci-static/resources/view/homeproxy/client.js:523-526 | if server x resolves through y, then y may not take x as its resolver |
| `ReferenceChecks.LocalDnsConflict` | htdocs/luci-static/resources/view/homeproxy/client.js:525 | 'local-dns' is refused as a resolver iff a DNS server named 'local' resolves through the edited one |
| `CandidateLists.EntriesAppend` | htdocs/luci-static/resources/view/homeproxy/client.js:676-689 | the entries from a store a + b are those from a followed by those from b, so store order is kept |
| `CandidateLists.EntryKeys` | htdocs/luci-static/resources/view/homeproxy/client.js:454-466 | a key comes from the store iff some enabled section of the field's collection, other than an excluded self, has it as its entry |
| `CandidateLists.CandidateKeys` | htdocs/luci-static/resources/view/homeproxy/client.js:268-281 | a loaded key is a built-in of the field or the entry of an offered section, and every such key is listed |
| `CandidateLists.DisablingWithdraws` | htdocs/luci-static/resources/view/homeproxy/client.js:430-433 | disabling the only section that offers a key removes that key from the list, unless the key is a built-in |
| `CandidateLists.AddressResolverOmitsSelf` | htdocs/luci-static/resources/view/homeproxy/client.js:506-519 | the address resolver list of a DNS server never holds an entry with that server's own tag |
| `CandidateLists.ListOption.AddSentinels` | htdocs/luci-static/resources/view/homeproxy/client.js:694-707 | appends the field's built-in keys and captions, one `value` call each, in the view's fixed order |
| `CandidateLists.ListOption.Load` | htdocs/luci-static/resources/view/homeproxy/client.js:184-198 | after a load, keylist and vallist are exactly the built-ins followed by the offered sections' entries, whatever they held before |
| `ProxyNodes.TypeTag` | htdocs/luci-static/resources/view/homeproxy/client.js:96 | the tag is the node's type; for a v2ray node it is 'v2ray/' followed by String(v2ray_protocol); it holds no ']' when neither option does |
| `ProxyNodes.Detail` | htdocs/luci-static/resources/view/homeproxy/client.js:97 | the detail is the node's label when that is non-empty, and otherwise String(server) + ':' + String(server_port) |
| `ProxyNodes.ProxyNodeLabel` | htdocs/luci-static/resources/view/homeproxy/client.js:95-97 | the caption "[TAG] DETAIL" reads back into the node's tag and detail whenever the tag holds no ']' |
| `ProxyNodes.SameTagCaptions` | htdocs/luci-static/resources/view/homeproxy/client.js:96-97 | two nodes with the same type tag have the same caption iff their label, or server:port, agree |
| `ProxyNodes.CacheProxyNodes` | htdocs/luci-static/resources/view/homeproxy/client.js:94-98 | the cache has one key for each 'node' section name, and maps it to the caption of the last section with that name |

## Left out

- Service status: the `service list` RPC, `getServiceStatus`, `renderStatus` and the polling status bar (lines 16-43 and 79-90) are network I/O and HTML.
- Form construction: maps, sections, `depends`, `rmempty`, `default`, `modaltitle`, `modalonly` and the other widget flags. The translation of captions and messages through `_()` is also left out. Built-in captions are kept as their untranslated message ids, and errors are kept as kinds.
- Label uniqueness: `hp.validateUniqueValue` (lines 222, 313, 493 and 576) lives in `tools.homeproxy`, which is not part of this model.
- IP parsing: `validation.parseIPv4` and `validation.parseIPv6` are LuCI code. `ValidateDnsServer` takes them as function parameters.
- Datatype checks: the `hostname` and `port` datatypes of the rule lists are LuCI code and are not modelled.
- The static lists of `main_server`, `main_udp_server` and `routing_node.node` (lines 102-117 and 229-230) enumerate the proxy-node object with `for ... in`. JavaScript's key order for objects is not modelled.
- LuCI internals: the `super('load')` call that returns the stored value, and whether a ListValue rejects keys outside its list or merges repeated keys.
- Form state: the uci store and `formvalue` are passed in explicitly. `uci.sections` becomes a store sequence filtered by section type.
- ValidateRoutingNodeOutbound: the sibling node value is `None` for null. The model treats `undefined === null` as false and does not model a form value of `undefined`.
- JsText.ParseInt: leading white space, the `0x` prefix and non-ASCII digits are not modelled. None of them changes the routing_port verdict, because `toString()` never produces them.
- Number precision: digit strings are read as unbounded integers and `toString` never uses exponent form. Comparisons against 0 and 65535 give the same answers under double rounding, so no verdict changes.
- ProxyNodes.ProxyNodeLabel: `String.format` is LuCI code. The model assumes it renders a missing type as `String(undefined)`, like the `+` concatenations it sits next to.
- Transitive cycle detection is not part of the source and is not modelled. `ThreeNodeLoopMissed` records the gap.
- Parts of a stricter design that the code does not have: the node check limited to enabled nodes with the same outbound, loop-free candidate lists, not-found or disabled reference errors, and a validator for `dns_server.address`. The model follows the code.

## Findings

| source | as written | input that shows it | evidently intended | confidence | as-written member | corrected member |
|---|---|---|---|---|---|---|
| htdocs/luci-static/resources/view/homeproxy/client.js:54 | when START and END are both given, `value[1] < value[2]` compares two strings | "9:10" is rejected and "100:20" is accepted | START < END compared as numbers, as when one side is defaulted | high; not executed | `FieldValidators.PortRangeStringOrder` | `FieldValidators.ValidatePortRangeNumeric` |

The corrected validator reads both sides as numbers. `ParseRenderPortRange`
proves that every range 0 <= START < END <= 65535 round-trips through it.
`PortRangeAgreement` proves that the two versions agree on every START:END
value where a side is missing or both sides have as many digits. The port-range fields of routing and
DNS rules keep the as-written `ValidatePortRange`, since that is what the
view runs.
