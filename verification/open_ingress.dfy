/**
 * The open-ingress filter of the security group scanner: walk every security
 * group, every ingress permission of the group and every IPv4 range of the
 * permission, and record the group's id once for each range whose CIDR literal
 * is exactly "0.0.0.0/0".
 *
 * The groups are the dictionaries returned by the EC2 query. Three keys are
 * read by subscripting (`GroupId`, `IpPermissions`, `CidrIp`), so a missing one
 * raises KeyError and ends the scan; `IpRanges` is read with a default of the
 * empty list, so a missing one means "no ranges". Every dictionary field is
 * therefore an `Option` here, and a scan is a `Result` whose error is the name
 * of the missing key.
 */
module OpenIngress {
  import opened Wrappers

  /** The one CIDR literal that counts as open to the world (exact string equality). */
  const WILDCARD: string := "0.0.0.0/0"

  /** The keys whose absence raises KeyError during the scan. */
  const GROUP_ID_KEY: string := "GroupId"
  const IP_PERMISSIONS_KEY: string := "IpPermissions"
  const CIDR_IP_KEY: string := "CidrIp"

  /** One entry of a permission's `IpRanges` list. */
  datatype IpRange = IpRange(cidrIp: Option<string>)

  /** One ingress permission; `ipRanges` is None when the key is absent. */
  datatype IpPermission = IpPermission(ipRanges: Option<seq<IpRange>>)

  /** One security group as returned by the query. */
  datatype SecurityGroup = SecurityGroup(groupId: Option<string>, ipPermissions: Option<seq<IpPermission>>)

  /** `permission.get('IpRanges', [])`. */
  function RangesOf(p: IpPermission): seq<IpRange>
  {
    match p.ipRanges
    case None => []
    case Some(ranges) => ranges
  }

  /** A range entry that opens the group to every source address. */
  predicate IsOpen(r: IpRange)
  {
    r.cidrIp == Some(WILDCARD)
  }

  // ---------------------------------------------------------------------------
  // The scan as the nested loops perform it, one visited element at a time.
  // Each function extends the list found so far; prefixes are scanned first,
  // so a scan of `s[..n]` is exactly the loop's state after n iterations.
  // ---------------------------------------------------------------------------

  /** The innermost loop body: compare one range with the wildcard, append the group id on a match. */
  function VisitRange(id: Option<string>, r: IpRange, found: seq<string>): Result<seq<string>, string>
  {
    match r.cidrIp
    case None => Failure(CIDR_IP_KEY)
    case Some(cidr) =>
      if cidr != WILDCARD then Success(found)
      else
        match id
        case None => Failure(GROUP_ID_KEY)
        case Some(gid) => Success(found + [gid])
  }

  /** The range loop of one permission, started with `found`. */
  function ScanRanges(id: Option<string>, ranges: seq<IpRange>, found: seq<string>): Result<seq<string>, string>
    decreases |ranges|
  {
    if ranges == [] then Success(found)
    else
      match ScanRanges(id, ranges[..|ranges| - 1], found)
      case Failure(e) => Failure(e)
      case Success(acc) => VisitRange(id, ranges[|ranges| - 1], acc)
  }

  /** The permission loop of one group, started with `found`. */
  function ScanPermissions(id: Option<string>, perms: seq<IpPermission>, found: seq<string>): Result<seq<string>, string>
    decreases |perms|
  {
    if perms == [] then Success(found)
    else
      match ScanPermissions(id, perms[..|perms| - 1], found)
      case Failure(e) => Failure(e)
      case Success(acc) => ScanRanges(id, RangesOf(perms[|perms| - 1]), acc)
  }

  /** The body of the group loop: `sg['IpPermissions']` must be present. */
  function ScanGroup(g: SecurityGroup, found: seq<string>): Result<seq<string>, string>
  {
    match g.ipPermissions
    case None => Failure(IP_PERMISSIONS_KEY)
    case Some(perms) => ScanPermissions(g.groupId, perms, found)
  }

  /** The group loop, started with `found`. */
  function ScanGroups(groups: seq<SecurityGroup>, found: seq<string>): Result<seq<string>, string>
    decreases |groups|
  {
    if groups == [] then Success(found)
    else
      match ScanGroups(groups[..|groups| - 1], found)
      case Failure(e) => Failure(e)
      case Success(acc) => ScanGroup(groups[|groups| - 1], acc)
  }

  /** The whole filter: the list of open groups, or the key whose absence stopped it. */
  function Scan(groups: seq<SecurityGroup>): Result<seq<string>, string>
  {
    ScanGroups(groups, [])
  }

  // ---------------------------------------------------------------------------
  // An independent description of the outcome: when no key is missing, and
  // which ids are reported how often in which order.
  // ---------------------------------------------------------------------------

  /** Number of wildcard entries in a range list. */
  function OpenCount(ranges: seq<IpRange>): nat
    decreases |ranges|
  {
    if ranges == [] then 0
    else OpenCount(ranges[..|ranges| - 1]) + (if IsOpen(ranges[|ranges| - 1]) then 1 else 0)
  }

  /** Number of wildcard entries over all permissions. */
  function PermOpenCount(perms: seq<IpPermission>): nat
    decreases |perms|
  {
    if perms == [] then 0
    else PermOpenCount(perms[..|perms| - 1]) + OpenCount(RangesOf(perms[|perms| - 1]))
  }

  /** Number of wildcard entries in a group. */
  function GroupOpenCount(g: SecurityGroup): nat
  {
    match g.ipPermissions
    case None => 0
    case Some(perms) => PermOpenCount(perms)
  }

  /** A group with some permission that has some wildcard range. */
  ghost predicate IsExposed(g: SecurityGroup)
  {
    g.ipPermissions.Some? &&
    exists p, r :: p in g.ipPermissions.value && r in RangesOf(p) && IsOpen(r)
  }

  /** `n` copies of the group id (none when the id is absent). */
  function Tags(id: Option<string>, n: nat): seq<string>
  {
    match id
    case None => []
    case Some(s) => seq(n, _ => s)
  }

  /** No range of the list lacks `CidrIp`, and a wildcard occurs only if the group id is present. */
  predicate RangesOk(id: Option<string>, ranges: seq<IpRange>)
  {
    (forall r | r in ranges :: r.cidrIp.Some?) &&
    (OpenCount(ranges) > 0 ==> id.Some?)
  }

  /** No range of any permission lacks `CidrIp`, and a wildcard occurs only if the group id is present. */
  predicate PermsOk(id: Option<string>, perms: seq<IpPermission>)
  {
    (forall p, r | p in perms && r in RangesOf(p) :: r.cidrIp.Some?) &&
    (PermOpenCount(perms) > 0 ==> id.Some?)
  }

  /** A group whose scan reads no missing key. */
  predicate GroupOk(g: SecurityGroup)
  {
    g.ipPermissions.Some? && PermsOk(g.groupId, g.ipPermissions.value)
  }

  /** Groups whose scan reads no missing key. */
  predicate Scannable(groups: seq<SecurityGroup>)
  {
    forall g | g in groups :: GroupOk(g)
  }

  /** The reference list: for each group in order, its id once per wildcard entry. */
  function Expected(groups: seq<SecurityGroup>): seq<string>
    decreases |groups|
  {
    if groups == [] then []
    else
      var g := groups[|groups| - 1];
      Expected(groups[..|groups| - 1]) + Tags(g.groupId, GroupOpenCount(g))
  }

  /** How often `id` should be reported: the wildcard entries of all groups carrying that id. */
  function IdOpenCount(groups: seq<SecurityGroup>, id: string): nat
    decreases |groups|
  {
    if groups == [] then 0
    else
      var g := groups[|groups| - 1];
      IdOpenCount(groups[..|groups| - 1], id) + (if g.groupId == Some(id) then GroupOpenCount(g) else 0)
  }

  // ---------------------------------------------------------------------------
  // The scan meets the reference description.
  // ---------------------------------------------------------------------------

  lemma TagsAppend(id: Option<string>, a: nat, b: nat)
    ensures Tags(id, a) + Tags(id, b) == Tags(id, a + b)
  {
  }

  lemma {:induction false} ScanRangesMeaning(id: Option<string>, ranges: seq<IpRange>, found: seq<string>)
    ensures ScanRanges(id, ranges, found).Success? <==> RangesOk(id, ranges)
    ensures RangesOk(id, ranges) ==> ScanRanges(id, ranges, found) == Success(found + Tags(id, OpenCount(ranges)))
    decreases |ranges|
  {
    if ranges != [] {
      var init, last := ranges[..|ranges| - 1], ranges[|ranges| - 1];
      assert ranges == init + [last];
      ScanRangesMeaning(id, init, found);
      assert RangesOk(id, ranges) ==> RangesOk(id, init) by {
        assert forall r | r in init :: r in ranges;
      }
      if RangesOk(id, init) {
        var acc := found + Tags(id, OpenCount(init));
        TagsAppend(id, OpenCount(init), if IsOpen(last) then 1 else 0);
        if id.Some? && IsOpen(last) {
          assert Tags(id, 1) == [id.value];
          assert acc + [id.value] == found + (Tags(id, OpenCount(init)) + Tags(id, 1));
        }
      }
     } else {
      assert found + Tags(id, 0) == found;
    }
  }

  lemma {:induction false} ScanPermissionsMeaning(id: Option<string>, perms: seq<IpPermission>, found: seq<string>)
    ensures ScanPermissions(id, perms, found).Success? <==> PermsOk(id, perms)
    ensures PermsOk(id, perms) ==> ScanPermissions(id, perms, found) == Success(found + Tags(id, PermOpenCount(perms)))
    decreases |perms|
  {
    if perms != [] {
      var init, last := perms[..|perms| - 1], perms[|perms| - 1];
      assert perms == init + [last];
      ScanPermissionsMeaning(id, init, found);
      assert PermsOk(id, perms) ==> PermsOk(id, init) by {
        assert forall p | p in init :: p in perms;
      }
      if PermsOk(id, init) {
        var acc := found + Tags(id, PermOpenCount(init));
        ScanRangesMeaning(id, RangesOf(last), acc);
        TagsAppend(id, PermOpenCount(init), OpenCount(RangesOf(last)));
        assert acc + Tags(id, OpenCount(RangesOf(last))) == found + Tags(id, PermOpenCount(perms));
        assert PermsOk(id, perms) <==> RangesOk(id, RangesOf(last)) by {
          forall p, r | p in perms && r in RangesOf(p)
            ensures RangesOk(id, RangesOf(last)) ==> r.cidrIp.Some?
          {
            if p != last {
              assert p in init;
            }
          }
        }
      }
    } else {
      assert found + Tags(id, 0) == found;
    }
  }

  lemma ScanGroupMeaning(g: SecurityGroup, found: seq<string>)
    ensures ScanGroup(g, found).Success? <==> GroupOk(g)
    ensures GroupOk(g) ==> ScanGroup(g, found) == Success(found + Tags(g.groupId, GroupOpenCount(g)))
  {
    if g.ipPermissions.Some? {
      ScanPermissionsMeaning(g.groupId, g.ipPermissions.value, found);
    }
  }

  lemma {:induction false} ScanGroupsMeaning(groups: seq<SecurityGroup>, found: seq<string>)
    ensures ScanGroups(groups, found).Success? <==> Scannable(groups)
    ensures Scannable(groups) ==> ScanGroups(groups, found) == Success(found + Expected(groups))
    decreases |groups|
  {
    if groups != [] {
      var init, last := groups[..|groups| - 1], groups[|groups| - 1];
      assert groups == init + [last];
      ScanGroupsMeaning(init, found);
      assert Scannable(groups) ==> Scannable(init) by {
        assert forall g | g in init :: g in groups;
      }
      if Scannable(init) {
        ScanGroupMeaning(last, found + Expected(init));
        assert found + Expected(init) + Tags(last.groupId, GroupOpenCount(last)) == found + Expected(groups);
      }
     } else {
      assert found + [] == found;
    }
  }

  /**
   * The filter succeeds exactly when no key it reads is missing, and then it
   * reports each group, in group order, once per wildcard range it has.
   */
  lemma ScanCharacterized(groups: seq<SecurityGroup>)
    ensures Scan(groups).Success? <==> Scannable(groups)
    ensures Scannable(groups) ==> Scan(groups) == Success(Expected(groups))
  {
    ScanGroupsMeaning(groups, []);
    assert [] + Expected(groups) == Expected(groups);
  }

  // ---------------------------------------------------------------------------
  // What the reference description says about the reported ids.
  // ---------------------------------------------------------------------------

  lemma {:induction false} OpenCountPositive(ranges: seq<IpRange>)
    ensures OpenCount(ranges) > 0 <==> exists r :: r in ranges && IsOpen(r)
    decreases |ranges|
  {
    if ranges != [] {
      var init, last := ranges[..|ranges| - 1], ranges[|ranges| - 1];
      assert ranges == init + [last];
      OpenCountPositive(init);
      assert forall r | r in init :: r in ranges;
    }
  }

  lemma {:induction false} PermOpenCountPositive(perms: seq<IpPermission>)
    ensures PermOpenCount(perms) > 0 <==> exists p, r :: p in perms && r in RangesOf(p) && IsOpen(r)
    decreases |perms|
  {
    if perms != [] {
      var init, last := perms[..|perms| - 1], perms[|perms| - 1];
      assert perms == init + [last];
      PermOpenCountPositive(init);
      OpenCountPositive(RangesOf(last));
      assert forall p | p in init :: p in perms;
      if PermOpenCount(perms) == 0 {
        forall p, r | p in perms && r in RangesOf(p)
          ensures !IsOpen(r)
        {
          if p != last {
            assert p in init;
          }
        }
      }
    }
  }

  /** A group has a wildcard entry exactly when it is exposed. */
  lemma GroupOpenCountPositive(g: SecurityGroup)
    ensures GroupOpenCount(g) > 0 <==> IsExposed(g)
  {
    if g.ipPermissions.Some? {
      PermOpenCountPositive(g.ipPermissions.value);
    }
  }

  lemma {:induction false} ExpectedMembers(groups: seq<SecurityGroup>, id: string)
    ensures id in Expected(groups) <==> exists g :: g in groups && g.groupId == Some(id) && IsExposed(g)
    decreases |groups|
  {
    if groups != [] {
      var init, last := groups[..|groups| - 1], groups[|groups| - 1];
      assert groups == init + [last];
      ExpectedMembers(init, id);
      GroupOpenCountPositive(last);
      assert forall g | g in init :: g in groups;
      var tags := Tags(last.groupId, GroupOpenCount(last));
      assert id in tags <==> last.groupId == Some(id) && GroupOpenCount(last) > 0 by {
        if last.groupId == Some(id) && GroupOpenCount(last) > 0 {
          assert tags[0] == id;
        }
      }
      if id in Expected(groups) && !(id in Expected(init)) {
        assert last in groups;
      }
    }
  }

  lemma TagsMultiplicity(id: Option<string>, n: nat, x: string)
    ensures multiset(Tags(id, n))[x] == if id == Some(x) then n else 0
    decreases n
  {
    if id.Some? && n > 0 {
      TagsMultiplicity(id, n - 1, x);
      TagsAppend(id, n - 1, 1);
      assert Tags(id, 1) == [id.value];
    }
  }

  lemma {:induction false} ExpectedMultiplicity(groups: seq<SecurityGroup>, id: string)
    ensures multiset(Expected(groups))[id] == IdOpenCount(groups, id)
    decreases |groups|
  {
    if groups != [] {
      var last := groups[|groups| - 1];
      ExpectedMultiplicity(groups[..|groups| - 1], id);
      TagsMultiplicity(last.groupId, GroupOpenCount(last), id);
    }
  }

  lemma {:induction false} ExpectedAppend(a: seq<SecurityGroup>, b: seq<SecurityGroup>)
    ensures Expected(a + b) == Expected(a) + Expected(b)
    decreases |b|
  {
    if b == [] {
      assert a + b == a;
    } else {
      var init, last := b[..|b| - 1], b[|b| - 1];
      assert (a + b)[..|a + b| - 1] == a + init;
      assert (a + b)[|a + b| - 1] == last;
      ExpectedAppend(a, init);
    }
  }

  /** Soundness and completeness: an id is reported exactly when some scanned group with that id is exposed. */
  lemma ScanReportsExposedGroups(groups: seq<SecurityGroup>, found: seq<string>, id: string)
    requires Scan(groups) == Success(found)
    ensures id in found <==> exists g :: g in groups && g.groupId == Some(id) && IsExposed(g)
  {
    ScanCharacterized(groups);
    ExpectedMembers(groups, id);
  }

  /** No deduplication: an id is reported once per wildcard entry of every group carrying it. */
  lemma ScanMultiplicity(groups: seq<SecurityGroup>, found: seq<string>, id: string)
    requires Scan(groups) == Success(found)
    ensures multiset(found)[id] == IdOpenCount(groups, id)
  {
    ScanCharacterized(groups);
    ExpectedMultiplicity(groups, id);
  }

  /** The findings are empty exactly when no scanned group is exposed. */
  lemma ScanEmptyIffNoneExposed(groups: seq<SecurityGroup>, found: seq<string>)
    requires Scan(groups) == Success(found)
    ensures found == [] <==> forall g | g in groups :: !IsExposed(g)
  {
    ScanCharacterized(groups);
    if found != [] {
      ExpectedMembers(groups, found[0]);
    } else {
      forall g | g in groups
        ensures !IsExposed(g)
      {
        if IsExposed(g) {
          GroupOpenCountPositive(g);
          ExpectedMembers(groups, g.groupId.value);
        }
      }
    }
  }

  lemma {:induction false} ScanGroupsFailurePersists(groups: seq<SecurityGroup>, n: nat, found: seq<string>)
    requires n <= |groups|
    requires ScanGroups(groups[..n], found).Failure?
    ensures ScanGroups(groups, found) == ScanGroups(groups[..n], found)
    decreases |groups|
  {
    if n < |groups| {
      var init := groups[..|groups| - 1];
      assert init[..n] == groups[..n];
      ScanGroupsFailurePersists(init, n, found);
    } else {
      assert groups[..n] == groups;
    }
  }

  /**
   * Group order is kept: scanning two lists one after the other reports the
   * first list's findings before the second's, and an error in the first list
   * is the error of the whole scan.
   */
  lemma ScanAppend(a: seq<SecurityGroup>, b: seq<SecurityGroup>)
    ensures Scan(a).Failure? ==> Scan(a + b) == Scan(a)
    ensures Scan(a + b).Success? <==> Scan(a).Success? && Scan(b).Success?
    ensures Scan(a + b).Success? ==> Scan(a + b).value == Scan(a).value + Scan(b).value
  {
    ScanCharacterized(a);
    ScanCharacterized(b);
    ScanCharacterized(a + b);
    ExpectedAppend(a, b);
    assert Scannable(a + b) <==> Scannable(a) && Scannable(b) by {
      assert forall g | g in a + b :: g in a || g in b;
      assert forall g | g in a :: g in a + b;
      assert forall g | g in b :: g in a + b;
    }
    if Scan(a).Failure? {
      assert (a + b)[..|a|] == a;
      ScanGroupsFailurePersists(a + b, |a|, []);
    }
  }

  /** `perms` with `p` inserted at position k. */
  function InsertPermission(perms: seq<IpPermission>, k: nat, p: IpPermission): seq<IpPermission>
    requires k <= |perms|
  {
    perms[..k] + [p] + perms[k..]
  }

  lemma {:induction false} EmptyPermissionNeutral(id: Option<string>, a: seq<IpPermission>, p: IpPermission, b: seq<IpPermission>, found: seq<string>)
    requires RangesOf(p) == []
    ensures ScanPermissions(id, a + [p] + b, found) == ScanPermissions(id, a + b, found)
    decreases |b|
  {
    if b == [] {
      assert (a + [p] + b)[..|a + [p] + b| - 1] == a;
      assert a + b == a;
    } else {
      var init, last := b[..|b| - 1], b[|b| - 1];
      assert (a + [p] + b)[..|a + [p] + b| - 1] == a + [p] + init;
      assert (a + b)[..|a + b| - 1] == a + init;
      EmptyPermissionNeutral(id, a, p, init, found);
    }
  }

  /**
   * A permission without an `IpRanges` key contributes nothing and raises
   * nothing, wherever it stands in the group's permission list.
   */
  lemma PermissionWithoutRangesIgnored(g: SecurityGroup, k: nat, p: IpPermission, found: seq<string>)
    requires g.ipPermissions.Some? && k <= |g.ipPermissions.value|
    requires p.ipRanges.None?
    ensures ScanGroup(g.(ipPermissions := Some(InsertPermission(g.ipPermissions.value, k, p))), found) == ScanGroup(g, found)
  {
    var perms := g.ipPermissions.value;
    assert perms == perms[..k] + perms[k..];
    EmptyPermissionNeutral(g.groupId, perms[..k], p, perms[k..], found);
  }

  lemma {:induction false} ScanRangesFailurePersists(id: Option<string>, ranges: seq<IpRange>, n: nat, found: seq<string>)
    requires n <= |ranges|
    requires ScanRanges(id, ranges[..n], found).Failure?
    ensures ScanRanges(id, ranges, found) == ScanRanges(id, ranges[..n], found)
    decreases |ranges|
  {
    if n < |ranges| {
      var init := ranges[..|ranges| - 1];
      assert init[..n] == ranges[..n];
      ScanRangesFailurePersists(id, init, n, found);
    } else {
      assert ranges[..n] == ranges;
    }
  }

  lemma {:induction false} ScanPermissionsFailurePersists(id: Option<string>, perms: seq<IpPermission>, n: nat, found: seq<string>)
    requires n <= |perms|
    requires ScanPermissions(id, perms[..n], found).Failure?
    ensures ScanPermissions(id, perms, found) == ScanPermissions(id, perms[..n], found)
    decreases |perms|
  {
    if n < |perms| {
      var init := perms[..|perms| - 1];
      assert init[..n] == perms[..n];
      ScanPermissionsFailurePersists(id, init, n, found);
    } else {
      assert perms[..n] == perms;
    }
  }

  /** A key missing at range k of permission j of group i ends the whole scan with that error. */
  lemma StopsAtRange(groups: seq<SecurityGroup>, i: nat, j: nat, k: nat, before: seq<string>, mid: seq<string>, acc: seq<string>)
    requires i < |groups| && groups[i].ipPermissions.Some?
    requires j < |groups[i].ipPermissions.value|
    requires k < |RangesOf(groups[i].ipPermissions.value[j])|
    requires ScanGroups(groups[..i], []) == Success(before)
    requires ScanPermissions(groups[i].groupId, groups[i].ipPermissions.value[..j], before) == Success(mid)
    requires ScanRanges(groups[i].groupId, RangesOf(groups[i].ipPermissions.value[j])[..k], mid) == Success(acc)
    requires VisitRange(groups[i].groupId, RangesOf(groups[i].ipPermissions.value[j])[k], acc).Failure?
    ensures Scan(groups) == VisitRange(groups[i].groupId, RangesOf(groups[i].ipPermissions.value[j])[k], acc)
    ensures !Scannable(groups)
  {
    var id, perms := groups[i].groupId, groups[i].ipPermissions.value;
    var ranges := RangesOf(perms[j]);
    assert ranges[..k + 1][..k] == ranges[..k];
    ScanRangesFailurePersists(id, ranges, k + 1, mid);
    assert perms[..j + 1][..j] == perms[..j];
    ScanPermissionsFailurePersists(id, perms, j + 1, before);
    assert groups[..i + 1][..i] == groups[..i];
    ScanGroupsFailurePersists(groups, i + 1, []);
    ScanCharacterized(groups);
  }

  // ---------------------------------------------------------------------------
  // The filter as the handler runs it: three nested loops appending to a list.
  // ---------------------------------------------------------------------------

  /**
   * Walks the groups, their permissions and their ranges in order, appending
   * the group id for every wildcard range; stops at the first missing key.
   */
  method FindOpenGroups(groups: seq<SecurityGroup>) returns (r: Result<seq<string>, string>)
    ensures r == Scan(groups)
    ensures r.Success? <==> Scannable(groups)
    ensures r.Success? ==> r.value == Expected(groups)
  {
    var open: seq<string> := [];
    var i := 0;
    while i < |groups|
      invariant i <= |groups|
      invariant ScanGroups(groups[..i], []) == Success(open)
    {
      var sg := groups[i];
      if sg.ipPermissions.None? {
        assert groups[..i + 1][..i] == groups[..i];
        ScanGroupsFailurePersists(groups, i + 1, []);
        ScanCharacterized(groups);
        return Failure(IP_PERMISSIONS_KEY);
      }
      var perms := sg.ipPermissions.value;
      ghost var before := open;
      var j := 0;
      while j < |perms|
        invariant j <= |perms|
        invariant ScanPermissions(sg.groupId, perms[..j], before) == Success(open)
      {
        var ranges := RangesOf(perms[j]);
        ghost var mid := open;
        var k := 0;
        while k < |ranges|
          invariant k <= |ranges|
          invariant ScanRanges(sg.groupId, ranges[..k], mid) == Success(open)
        {
          var cidr := ranges[k].cidrIp;
          if cidr.None? {
            StopsAtRange(groups, i, j, k, before, mid, open);
            return Failure(CIDR_IP_KEY);
          }
          if cidr.value == WILDCARD {
            if sg.groupId.None? {
              StopsAtRange(groups, i, j, k, before, mid, open);
              return Failure(GROUP_ID_KEY);
            }
            open := open + [sg.groupId.value];
          }
          assert ranges[..k + 1][..k] == ranges[..k];
          k := k + 1;
        }
        assert ranges[..k] == ranges;
        assert perms[..j + 1][..j] == perms[..j];
        j := j + 1;
      }
      assert perms[..j] == perms;
      assert groups[..i + 1][..i] == groups[..i];
      i := i + 1;
    }
    assert groups[..i] == groups;
    ScanCharacterized(groups);
    r := Success(open);
  }
}
