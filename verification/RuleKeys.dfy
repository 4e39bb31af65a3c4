/** Member names of rules, rule-sets, outbounds and DNS servers.

    Names the code looks at are constructors; every other name is `Other`. */
module RuleKeys {
  import opened JsonValue

  datatype Key =
    // action members
    | Outbound | Action | Server | DisableCache | RewriteTtl | ClientSubnet | Method | NoDrop | Timeout
    | OverrideAddress | OverridePort | UdpDisableDomainUnmapping | UdpTimeout | TlsFragment
    | TlsFragmentFallbackDelay | TlsRecordFragment | Invert
    // structure
    | Type | Mode | Rules | Tag | Url | DownloadUrl | Path | Format | Name | Bundled | Outbounds | Default
    // conditions
    | RuleSet | Geoip | Geosite | IpIsPrivate | ClashMode | Inbound
    // DNS
    | IpCidr | IpAcceptAny | RuleSetIpCidrAcceptEmpty | MatchResponse | QueryType | IpVersion | Strategy
    | ResponseRcode | ResponseAnswer | ResponseNs | ResponseExtra | Race | Speculative
    | DisableOptimisticCache | RemoveClientSubnet | Rcode | Answer | Ns | Extra
    | RuleSetIpCidrMatchSource | RuleSetIpcidrMatchSource | Inet6Range
    | Other(name: string)

  type Value = Json<Key>

  /** Members that carry the action of a rule rather than a condition. */
  predicate MetaKey(key: Key) {
    match key
    case Outbound | Action | Server | DisableCache | RewriteTtl | ClientSubnet | Method | NoDrop | Timeout
       | OverrideAddress | OverridePort | UdpDisableDomainUnmapping | UdpTimeout | TlsFragment
       | TlsFragmentFallbackDelay | TlsRecordFragment | Invert => true
    case _ => false
  }

  /** Objects with the same members are equal. */
  lemma SameFields(a: Value, b: Value)
    requires a.Obj? && b.Obj? && forall k :: Get(a, k) == Get(b, k)
    ensures a == b
  {
    assert forall k :: k in a.fields <==> Get(a, k).Some?;
    assert forall k :: k in b.fields <==> Get(b, k).Some?;
    assert forall k :: k in a.fields ==> Get(a, k) == Some(a.fields[k]) && Get(b, k) == Some(b.fields[k]);
    assert a.fields == b.fields;
  }
}
