/** The DNS-01 responder for Google Cloud DNS: the zones whose DNS name occurs in the record, the
    longest of them, the change request that publishes or deletes the challenge record, and the
    wait until Cloud DNS no longer reports the change PENDING. Cloud DNS is represented by its
    inputs: the listing of managed zones with their record sets and the successive statuses of
    the applied change. */
module CloudDns {
  import opened Wrappers
  import opened Strings
  import opened Model
  import opened DnsResponder

  datatype RecordType = TXT | A | AAAA | CNAME | MX | NS | SOA
  datatype RecordSet = RecordSet(name: string, recordType: RecordType, ttlSeconds: int, records: seq<string>)
  /** A managed zone: its name, its DNS name (with the trailing full stop) and its record sets. */
  datatype Zone = Zone(name: string, dnsName: string, recordSets: seq<RecordSet>)
  /** `ChangeRequestInfo`: the record sets to add and those to delete. */
  datatype ChangeRequestInfo = ChangeRequestInfo(additions: seq<RecordSet>, deletions: seq<RecordSet>)
  /** A change request applied to the zone called `zone`. */
  datatype ChangeRequest = ChangeRequest(zone: string, info: ChangeRequestInfo)
  datatype ChangeType = ADD | REMOVE
  datatype ChangeStatus = PENDING | DONE

  /** TTL of a challenge record: one minute. */
  const CHALLENGE_TTL_SECONDS: int := 60

  // --------------------------------------------------------- zone selection

  /** The zones whose DNS name occurs in `fqdn`, in listing order. */
  function ContainingZones(zones: seq<Zone>, fqdn: string): seq<Zone> {
    if zones == [] then []
    else
      var last := zones[|zones| - 1];
      ContainingZones(zones[..|zones| - 1], fqdn) + (if Contains(fqdn, last.dnsName) then [last] else [])
  }

  lemma {:induction false} ContainingZonesMembers(zones: seq<Zone>, fqdn: string)
    ensures forall z :: z in ContainingZones(zones, fqdn) <==> z in zones && Contains(fqdn, z.dnsName)
  {
    if zones != [] {
      ContainingZonesMembers(zones[..|zones| - 1], fqdn);
      assert zones == zones[..|zones| - 1] + [zones[|zones| - 1]];
    }
  }

  /** Filtering a listing made of two parts filters each part: the order of the listing is kept. */
  lemma {:induction false} ContainingZonesSplit(a: seq<Zone>, b: seq<Zone>, fqdn: string)
    ensures ContainingZones(a + b, fqdn) == ContainingZones(a, fqdn) + ContainingZones(b, fqdn)
    decreases |b|
  {
    if b == [] {
      assert a + b == a;
    } else {
      var b' := b[..|b| - 1];
      assert (a + b)[..|a + b| - 1] == a + b';
      ContainingZonesSplit(a, b', fqdn);
    }
  }

  /** `fetchMatchingZones`: walks the listing, keeping every zone whose DNS name occurs
      (`contains`, not as a suffix) in the fully qualified record name. */
  method FetchMatchingZones(zones: seq<Zone>, recordName: string) returns (zoneList: seq<Zone>)
    ensures zoneList == ContainingZones(zones, DetermineFqdnRecord(recordName))
  {
    var fqdnRecord := DetermineFqdnRecord(recordName);
    zoneList := [];
    for i := 0 to |zones|
      invariant zoneList == ContainingZones(zones[..i], fqdnRecord)
    {
      assert zones[..i + 1][..i] == zones[..i];
      if Contains(fqdnRecord, zones[i].dnsName) {
        zoneList := zoneList + [zones[i]];
      }
    }
    assert zones[..|zones|] == zones;
  }

  /** The `reduce` of `findMatchingZone`: a later zone wins only with a strictly longer DNS name. */
  function Longest(acc: Zone, rest: seq<Zone>): Zone
    decreases |rest|
  {
    if rest == [] then acc
    else Longest(if |rest[0].dnsName| > |acc.dnsName| then rest[0] else acc, rest[1..])
  }

  /** `Longest` picks the first zone of maximal DNS-name length. */
  lemma {:induction false} LongestIsFirstMaximal(acc: Zone, rest: seq<Zone>)
    ensures var all := [acc] + rest; var r := Longest(acc, rest);
      exists k :: 0 <= k < |all| && all[k] == r
        && (forall j :: 0 <= j < |all| ==> |all[j].dnsName| <= |r.dnsName|)
        && (forall j :: 0 <= j < k ==> |all[j].dnsName| < |r.dnsName|)
  {
    var all := [acc] + rest;
    var r := Longest(acc, rest);
    LongestIsMaximal(acc, rest);
    var k := LongestFirstIndex(acc, rest);
    assert forall j :: 0 <= j < |all| ==> |all[j].dnsName| <= |r.dnsName| by {
      forall j | 0 <= j < |all| ensures |all[j].dnsName| <= |r.dnsName| {
        assert all[j] in all;
      }
    }
  }

  /** No zone is longer than the one `Longest` picks. */
  lemma {:induction false} LongestIsMaximal(acc: Zone, rest: seq<Zone>)
    ensures forall z :: z in [acc] + rest ==> |z.dnsName| <= |Longest(acc, rest).dnsName|
    decreases |rest|
  {
    if rest != [] {
      var next := if |rest[0].dnsName| > |acc.dnsName| then rest[0] else acc;
      LongestIsMaximal(next, rest[1..]);
      assert forall z :: z in [acc] + rest ==> z == acc || z == rest[0] || z in rest[1..];
    }
  }

  /** The position of the zone `Longest` picks; every zone before it is strictly shorter. */
  lemma {:induction false} LongestFirstIndex(acc: Zone, rest: seq<Zone>) returns (k: nat)
    ensures k <= |rest| && ([acc] + rest)[k] == Longest(acc, rest)
    ensures forall j :: 0 <= j < k ==> |([acc] + rest)[j].dnsName| < |Longest(acc, rest).dnsName|
    decreases |rest|
  {
    if rest == [] {
      return 0;
    }
    var all := [acc] + rest;
    var r := Longest(acc, rest);
    var longer := |rest[0].dnsName| > |acc.dnsName|;
    var next := if longer then rest[0] else acc;
    var all' := [next] + rest[1..];
    var k' := LongestFirstIndex(next, rest[1..]);
    assert r == Longest(next, rest[1..]);
    if k' == 0 {
      k := if longer then 1 else 0;
    } else {
      k := k' + 1;
      assert all[k] == all'[k'];
      forall j | 0 <= j < k ensures |all[j].dnsName| < |r.dnsName| {
        if j >= 2 {
          assert all[j] == all'[j - 1];
        } else {
          assert |all[j].dnsName| <= |all'[0].dnsName|;
        }
      }
    }
  }

  /** `z` is the zone that `findMatchingZone` settles on for `fqdn`: a listed zone whose DNS name
      occurs in `fqdn`, with no matching zone of a longer DNS name, and the first matching zone
      of its length in listing order. */
  predicate MostSpecific(zones: seq<Zone>, fqdn: string, z: Zone) {
    var matching := ContainingZones(zones, fqdn);
    && z in zones && Contains(fqdn, z.dnsName)
    && (forall y :: y in zones && Contains(fqdn, y.dnsName) ==> |y.dnsName| <= |z.dnsName|)
    && exists k :: 0 <= k < |matching| && matching[k] == z
         && forall j :: 0 <= j < k ==> |matching[j].dnsName| < |z.dnsName|
  }

  /** The zone `findMatchingZone` selects for `recordName`, if any. */
  function MatchingZone(zones: seq<Zone>, recordName: string): Option<Zone> {
    var matching := ContainingZones(zones, DetermineFqdnRecord(recordName));
    if matching == [] then None else Some(Longest(matching[0], matching[1..]))
  }

  /** A zone is selected exactly when some DNS name occurs in the record, and the selected zone is
      the most specific one. */
  lemma MatchingZoneIsMostSpecific(zones: seq<Zone>, recordName: string)
    ensures var fqdn := DetermineFqdnRecord(recordName);
      && (MatchingZone(zones, recordName).None? <==> forall z :: z in zones ==> !Contains(fqdn, z.dnsName))
      && (MatchingZone(zones, recordName).Some? ==> MostSpecific(zones, fqdn, MatchingZone(zones, recordName).value))
  {
    var fqdn := DetermineFqdnRecord(recordName);
    var matching := ContainingZones(zones, fqdn);
    ContainingZonesMembers(zones, fqdn);
    if matching != [] {
      assert [matching[0]] + matching[1..] == matching;
      LongestIsFirstMaximal(matching[0], matching[1..]);
      var r := Longest(matching[0], matching[1..]);
      forall z | z in zones && Contains(fqdn, z.dnsName) ensures |z.dnsName| <= |r.dnsName| {
        assert z in matching;
      }
    }
  }

  /** `findMatchingZone`: of the zones whose DNS name occurs in the record, the first one of
      maximal length; `None` when there is none (where Kotlin's `reduce` throws). */
  method FindMatchingZone(zones: seq<Zone>, recordName: string) returns (r: Option<Zone>)
    ensures r == MatchingZone(zones, recordName)
    ensures var fqdn := DetermineFqdnRecord(recordName);
      && (r.None? <==> forall z :: z in zones ==> !Contains(fqdn, z.dnsName))
      && (r.Some? ==> MostSpecific(zones, fqdn, r.value))
  {
    var matching := FetchMatchingZones(zones, recordName);
    if matching == [] {
      r := None;
    } else {
      r := Some(Longest(matching[0], matching[1..]));
    }
    MatchingZoneIsMostSpecific(zones, recordName);
  }

  /** `other.tazj.in.` does not occur in `_acme-challenge.some.test.tazj.in.`: the only `o`
      of the record is followed by `m`. */
  lemma OtherZoneDoesNotOccur(fqdn: string, other: string)
    requires fqdn == "_acme-challenge.some.test.tazj.in." && other == "other.tazj.in."
    ensures !Contains(fqdn, other)
  {
    forall i | 0 <= i <= |fqdn| - |other| ensures !OccursAt(fqdn, other, i) {
      if fqdn[i] == 'o' {
        assert i == 17;
        assert fqdn[i + 1] != other[1];
        assert fqdn[i..i + |other|][1] == fqdn[i + 1];
      } else {
        assert fqdn[i..i + |other|][0] == fqdn[i];
      }
    }
  }

  /** Of `tazj.in.`, `test.tazj.in.` and `other.tazj.in.`, the zones that occur in the record
      `_acme-challenge.some.test.tazj.in` are the first two, and the longer one, `correct`, is
      picked. */
  lemma CorrectZoneIsFound(zones: seq<Zone>, record: string)
    requires zones == [Zone("incorrect-1", "tazj.in.", []), Zone("correct", "test.tazj.in.", []),
                       Zone("incorrect-2", "other.tazj.in.", [])]
    requires record == "_acme-challenge.some.test.tazj.in"
    ensures var matching := ContainingZones(zones, DetermineFqdnRecord(record));
            matching == zones[..2] && Longest(matching[0], matching[1..]).name == "correct"
  {
    var fqdn := DetermineFqdnRecord(record);
    assert fqdn == "_acme-challenge.some.test.tazj.in.";
    ScenarioMatching(zones, fqdn);
    assert zones[..2][1..] == [zones[1]];
  }

  lemma ScenarioMatching(zones: seq<Zone>, fqdn: string)
    requires zones == [Zone("incorrect-1", "tazj.in.", []), Zone("correct", "test.tazj.in.", []),
                       Zone("incorrect-2", "other.tazj.in.", [])]
    requires fqdn == "_acme-challenge.some.test.tazj.in."
    ensures ContainingZones(zones, fqdn) == zones[..2]
  {
    assert Contains(fqdn, zones[0].dnsName) && Contains(fqdn, zones[1].dnsName) by {
      SuffixIsContained(fqdn, zones[0].dnsName);
      SuffixIsContained(fqdn, zones[1].dnsName);
    }
    assert !Contains(fqdn, zones[2].dnsName) by {
      OtherZoneDoesNotOccur(fqdn, zones[2].dnsName);
    }
    assert zones[..|zones| - 1] == zones[..2];
    assert zones[..2][..1] == zones[..1];
    assert zones[..1][..0] == [];
    assert ContainingZones(zones[..1], fqdn) == [zones[0]];
    assert ContainingZones(zones[..2], fqdn) == [zones[0], zones[1]];
  }

  // -------------------------------------------------------------- the change

  /** The record set that publishes a challenge: a TXT set at the fully qualified name with a
      one-minute TTL holding the digest as it is (Cloud DNS needs no quoting). */
  function ChallengeRecordSet(recordName: string, digest: string): (r: RecordSet)
    ensures r.name == DetermineFqdnRecord(recordName)
    ensures r.recordType == TXT && r.ttlSeconds == 60 && r.records == [digest]
  {
    RecordSet(DetermineFqdnRecord(recordName), TXT, CHALLENGE_TTL_SECONDS, [digest])
  }

  /** The existing record sets that the new one replaces: same name and same type, in order. */
  function SameNameAndType(existing: seq<RecordSet>, recordSet: RecordSet): (r: seq<RecordSet>)
    ensures forall s :: s in r <==> s in existing && s.name == recordSet.name && s.recordType == recordSet.recordType
  {
    if existing == [] then []
    else
      var last := existing[|existing| - 1];
      SameNameAndType(existing[..|existing| - 1], recordSet)
        + (if last.name == recordSet.name && last.recordType == recordSet.recordType then [last] else [])
  }

  /** The scan of an ADD over the zone's record sets: every existing set with the challenge set's
      name and type is deleted, in listing order. */
  method ExistingRecordSets(existing: seq<RecordSet>, recordSet: RecordSet) returns (deletions: seq<RecordSet>)
    ensures deletions == SameNameAndType(existing, recordSet)
  {
    deletions := [];
    for i := 0 to |existing|
      invariant deletions == SameNameAndType(existing[..i], recordSet)
    {
      assert existing[..i + 1][..i] == existing[..i];
      var current := existing[i];
      if recordSet.name == current.name && recordSet.recordType == current.recordType {
        deletions := deletions + [current];
      }
    }
    assert existing[..|existing|] == existing;
  }

  /** `updateCloudDnsRecord`: the change goes to the zone `findMatchingZone` selects. An ADD
      deletes every record set of that zone with the same name and type, then adds the challenge
      set; a REMOVE deletes the challenge set. Nothing is applied when no zone matches. */
  method UpdateCloudDnsRecord(zones: seq<Zone>, recordName: string, digest: string, changeType: ChangeType)
    returns (r: Outcome<ChangeRequest>)
    ensures r.Err? ==> r.error == NoMatchingZone
    ensures r.Err? <==> forall z :: z in zones ==> !Contains(DetermineFqdnRecord(recordName), z.dnsName)
    ensures r.Ok? ==>
              && MatchingZone(zones, recordName).Some?
              && MostSpecific(zones, DetermineFqdnRecord(recordName), MatchingZone(zones, recordName).value)
              && r.value.zone == MatchingZone(zones, recordName).value.name
    ensures r.Ok? && changeType == ADD ==>
              r.value.info == ChangeRequestInfo([ChallengeRecordSet(recordName, digest)],
                                                SameNameAndType(MatchingZone(zones, recordName).value.recordSets,
                                                                ChallengeRecordSet(recordName, digest)))
    ensures r.Ok? && changeType == REMOVE ==>
              r.value.info == ChangeRequestInfo([], [ChallengeRecordSet(recordName, digest)])
  {
    var matchingZone := FindMatchingZone(zones, recordName);
    if matchingZone.None? {
      return Err(NoMatchingZone);
    }
    var zone := matchingZone.value;
    var recordSet := ChallengeRecordSet(recordName, digest);
    var info: ChangeRequestInfo;
    if changeType == ADD {
      var deletions := ExistingRecordSets(zone.recordSets, recordSet);
      info := ChangeRequestInfo([recordSet], deletions);
    } else {
      info := ChangeRequestInfo([], [recordSet]);
    }
    r := Ok(ChangeRequest(zone.name, info));
  }

  /** `addChallengeRecord`: applies the ADD to the selected zone, waits for it, and yields the
      DNS name of that zone. */
  method AddChallengeRecord(zones: seq<Zone>, recordName: string, digest: string, statuses: seq<ChangeStatus>)
    returns (r: Outcome<string>, applied: Option<ChangeRequest>, polls: nat)
    requires exists k :: 0 <= k < |statuses| && statuses[k] != PENDING
    ensures r.Err? <==> applied.None?
    ensures r.Err? ==> r.error == NoMatchingZone && polls == 0
    ensures r.Err? <==> forall z :: z in zones ==> !Contains(DetermineFqdnRecord(recordName), z.dnsName)
    ensures r.Ok? ==>
              && MatchingZone(zones, recordName).Some?
              && MostSpecific(zones, DetermineFqdnRecord(recordName), MatchingZone(zones, recordName).value)
              && applied.value.zone == MatchingZone(zones, recordName).value.name
              && r.value == MatchingZone(zones, recordName).value.dnsName
    ensures r.Ok? ==> applied.value.info.additions == [ChallengeRecordSet(recordName, digest)]
    ensures r.Ok? ==> polls < |statuses| && statuses[polls] != PENDING
                      && forall j :: 0 <= j < polls ==> statuses[j] == PENDING
  {
    var result := UpdateCloudDnsRecord(zones, recordName, digest, ADD);
    if result.Err? {
      return Err(result.error), None, 0;
    }
    applied := Some(result.value);
    polls := PollWhilePending(statuses, PENDING);
    r := Ok(MatchingZone(zones, recordName).value.dnsName);
  }

  /** `removeChallengeRecord`: applies the REMOVE to the selected zone without waiting for it. */
  method RemoveChallengeRecord(zones: seq<Zone>, recordName: string, digest: string)
    returns (r: Outcome<()>, applied: Option<ChangeRequest>)
    ensures r.Err? <==> applied.None?
    ensures r.Err? <==> forall z :: z in zones ==> !Contains(DetermineFqdnRecord(recordName), z.dnsName)
    ensures r.Ok? ==>
              && MatchingZone(zones, recordName).Some?
              && MostSpecific(zones, DetermineFqdnRecord(recordName), MatchingZone(zones, recordName).value)
              && applied.value.zone == MatchingZone(zones, recordName).value.name
              && applied.value.info == ChangeRequestInfo([], [ChallengeRecordSet(recordName, digest)])
  {
    var result := UpdateCloudDnsRecord(zones, recordName, digest, REMOVE);
    if result.Err? {
      return Err(result.error), None;
    }
    applied := Some(result.value);
    r := Ok(());
  }
}
