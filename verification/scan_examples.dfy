/**
 * Concrete invocations: the filter on small inputs, and the handler on the
 * query failure and on a put that raises.
 */
module ScanExamples {
  import opened Wrappers
  import opened OpenIngress
  import opened ScanHandler

  function Range(cidr: string): IpRange
  {
    IpRange(Some(cidr))
  }

  function Permission(ranges: seq<IpRange>): IpPermission
  {
    IpPermission(Some(ranges))
  }

  function Group(id: string, perms: seq<IpPermission>): SecurityGroup
  {
    SecurityGroup(Some(id), Some(perms))
  }

  /** One wildcard range among others: reported once; other literals are ignored. */
  lemma MixedRangesMatchOnce()
    ensures Scan([Group("sg-1", [Permission([Range("10.0.0.0/8"), Range(WILDCARD)])])]) == Success(["sg-1"])
  {
    var ranges := [Range("10.0.0.0/8"), Range(WILDCARD)];
    var p := Permission(ranges);
    var g := Group("sg-1", [p]);
    assert ranges[..1] == [Range("10.0.0.0/8")];
    assert ScanRanges(Some("sg-1"), ranges[..1], []) == Success([]);
    assert [] + ["sg-1"] == ["sg-1"];
    assert ScanRanges(Some("sg-1"), ranges, []) == Success(["sg-1"]);
    assert ScanPermissions(Some("sg-1"), [p], []) == Success(["sg-1"]);
    assert ScanGroups([g], []) == Success(["sg-1"]);
  }

  /** Two permissions each with the wildcard: the id is reported twice, and groups keep their order. */
  lemma DuplicatesKept()
    ensures Scan([Group("sg-1", [Permission([Range(WILDCARD)]), Permission([Range(WILDCARD)])]),
                  Group("sg-2", [Permission([Range("10.0.0.0/8")])]),
                  Group("sg-3", [Permission([Range(WILDCARD)])])])
            == Success(["sg-1", "sg-1", "sg-3"])
  {
    var p1, p2 := Permission([Range(WILDCARD)]), Permission([Range("10.0.0.0/8")]);
    var g1, g2, g3 := Group("sg-1", [p1, p1]), Group("sg-2", [p2]), Group("sg-3", [p1]);
    assert [] + ["sg-1"] == ["sg-1"];
    assert ["sg-1"] + ["sg-1"] == ["sg-1", "sg-1"];
    assert ["sg-1", "sg-1"] + ["sg-3"] == ["sg-1", "sg-1", "sg-3"];
    assert ScanRanges(Some("sg-1"), RangesOf(p1), []) == Success(["sg-1"]);
    assert ScanRanges(Some("sg-1"), RangesOf(p1), ["sg-1"]) == Success(["sg-1", "sg-1"]);
    assert [p1, p1][..1] == [p1];
    assert ScanPermissions(Some("sg-1"), [p1], []) == Success(["sg-1"]);
    assert ScanPermissions(Some("sg-1"), [p1, p1], []) == Success(["sg-1", "sg-1"]);
    assert ScanGroups([g1], []) == Success(["sg-1", "sg-1"]);
    assert ScanRanges(Some("sg-2"), RangesOf(p2), ["sg-1", "sg-1"]) == Success(["sg-1", "sg-1"]);
    assert ScanPermissions(Some("sg-2"), [p2], ["sg-1", "sg-1"]) == Success(["sg-1", "sg-1"]);
    assert [g1, g2][..1] == [g1];
    assert ScanGroups([g1, g2], []) == Success(["sg-1", "sg-1"]);
    assert ScanRanges(Some("sg-3"), RangesOf(p1), ["sg-1", "sg-1"]) == Success(["sg-1", "sg-1", "sg-3"]);
    assert ScanPermissions(Some("sg-3"), [p1], ["sg-1", "sg-1"]) == Success(["sg-1", "sg-1", "sg-3"]);
    assert [g1, g2, g3][..2] == [g1, g2];
    assert ScanGroups([g1, g2, g3], []) == Success(["sg-1", "sg-1", "sg-3"]);
  }

  /** Only the exact literal matches: a longer prefix length or the IPv6 wildcard does not. */
  lemma NearMissesIgnored()
    ensures Scan([Group("sg-1", [Permission([Range("0.0.0.0/00"), Range("::/0"), Range("0.0.0.0/1")])])]) == Success([])
  {
    var ranges := [Range("0.0.0.0/00"), Range("::/0"), Range("0.0.0.0/1")];
    var p := Permission(ranges);
    assert ranges[..2][..1] == [Range("0.0.0.0/00")];
    assert ScanRanges(Some("sg-1"), ranges[..2][..1], []) == Success([]);
    assert ranges[..2] == [Range("0.0.0.0/00"), Range("::/0")];
    assert ScanRanges(Some("sg-1"), ranges[..2], []) == Success([]);
    assert ScanRanges(Some("sg-1"), ranges, []) == Success([]);
    assert ScanPermissions(Some("sg-1"), [p], []) == Success([]);
    assert ScanGroups([Group("sg-1", [p])], []) == Success([]);
  }

  /** A permission without `IpRanges` contributes nothing and raises nothing. */
  lemma MissingRangesKeyIgnored()
    ensures Scan([Group("sg-1", [IpPermission(None), Permission([Range(WILDCARD)])])]) == Success(["sg-1"])
  {
    var perms := [IpPermission(None), Permission([Range(WILDCARD)])];
    assert perms[..1] == [IpPermission(None)];
    assert ScanPermissions(Some("sg-1"), perms[..1], []) == Success([]);
    assert [] + ["sg-1"] == ["sg-1"];
    assert ScanRanges(Some("sg-1"), [Range(WILDCARD)], []) == Success(["sg-1"]);
    assert ScanPermissions(Some("sg-1"), perms, []) == Success(["sg-1"]);
    assert ScanGroups([Group("sg-1", perms)], []) == Success(["sg-1"]);
  }

  /** A range without `CidrIp` ends the scan with KeyError('CidrIp'), even after a match. */
  lemma MissingCidrRaises()
    ensures Scan([Group("sg-1", [Permission([Range(WILDCARD), IpRange(None)])])]) == Failure(CIDR_IP_KEY)
  {
    var ranges := [Range(WILDCARD), IpRange(None)];
    var p := Permission(ranges);
    assert ranges[..1] == [Range(WILDCARD)];
    assert [] + ["sg-1"] == ["sg-1"];
    assert ScanRanges(Some("sg-1"), ranges[..1], []) == Success(["sg-1"]);
    assert ScanRanges(Some("sg-1"), ranges, []) == Failure(CIDR_IP_KEY);
    assert ScanPermissions(Some("sg-1"), [p], []) == Failure(CIDR_IP_KEY);
    assert ScanGroups([Group("sg-1", [p])], []) == Failure(CIDR_IP_KEY);
  }

  /** The query raises: one error notification, nothing stored, the usual response. */
  method QueryFailure(render: seq<string> -> string, encode: seq<string> -> string)
    returns (effects: seq<Effect>, ending: Ending)
    ensures effects == [Published(TOPIC_ARN, ALERT_SUBJECT, ERROR_PREFIX + "AccessDenied")]
    ensures ending == Returned(200, COMPLETE_BODY)
  {
    var svc := Services(Failure("AccessDenied"), Completes, Completes, Completes, "2024-01-01T00:00:00");
    effects, ending := LambdaHandler(svc, render, encode);
  }

  /** The put raises after the alert: the alert, then the error notification, and no record. */
  method PutFailure(render: seq<string> -> string, encode: seq<string> -> string)
    returns (effects: seq<Effect>, ending: Ending)
    ensures |effects| == 2 && effects[0].Published? && effects[1].Published?
    ensures effects[0].message == FOUND_PREFIX + render(["sg-1"])
    ensures effects[1].message == ERROR_PREFIX + "NoSuchBucket"
    ensures ending == ENVELOPE
  {
    var groups := [Group("sg-1", [Permission([Range(WILDCARD)])])];
    var svc := Services(Success(groups), Completes, Raises("NoSuchBucket"), Completes, "2024-01-01T00:00:00");
    assert [] + ["sg-1"] == ["sg-1"];
    assert ScanRanges(Some("sg-1"), [Range(WILDCARD)], []) == Success(["sg-1"]);
    assert ScanPermissions(Some("sg-1"), [Permission([Range(WILDCARD)])], []) == Success(["sg-1"]);
    assert ScanGroups(groups, []) == Success(["sg-1"]);
    effects, ending := LambdaHandler(svc, render, encode);
  }

  /** The error notification itself raises: the exception leaves the handler. */
  method ErrorPublishFailure(render: seq<string> -> string, encode: seq<string> -> string)
    returns (effects: seq<Effect>, ending: Ending)
    ensures effects == [] && ending == Raised("Throttling")
  {
    var svc := Services(Failure("Timeout"), Completes, Completes, Raises("Throttling"), "2024-01-01T00:00:00");
    effects, ending := LambdaHandler(svc, render, encode);
  }
}
