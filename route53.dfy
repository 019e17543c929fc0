/** The DNS-01 responder for AWS Route 53: selection of the hosted zone for a record, the quoting
    of TXT values and the single-change batch that publishes or deletes the challenge record,
    followed by polling the change until Route 53 no longer reports it PENDING. The Route 53
    API is represented by its inputs: the listing of hosted zones and the successive statuses
    of the submitted change. */
module Route53 {
  import opened Wrappers
  import opened Strings
  import opened Model
  import opened DnsResponder

  datatype HostedZone = HostedZone(id: string, name: string, privateZone: bool)

  datatype ChangeAction = CREATE | DELETE | UPSERT
  datatype RRType = TXT | A | AAAA | CNAME | MX | NS | SOA
  datatype ResourceRecordSet = ResourceRecordSet(name: string, rrType: RRType, ttl: int, records: seq<string>)
  datatype Change = Change(action: ChangeAction, recordSet: ResourceRecordSet)
  /** `ChangeResourceRecordSetsRequest(hostedZoneId, ChangeBatch(changes))` */
  datatype ChangeRequest = ChangeRequest(hostedZoneId: string, changes: seq<Change>)
  datatype ChangeStatus = PENDING | INSYNC

  /** TTL, in seconds, of a challenge record. */
  const CHALLENGE_TTL: int := 60

  // --------------------------------------------------------- zone selection

  /** The zones whose name is a suffix of `fqdn`, in listing order. */
  function SuffixZones(zones: seq<HostedZone>, fqdn: string): (r: seq<HostedZone>)
    ensures forall z :: z in r <==> z in zones && EndsWith(fqdn, z.name)
    ensures |r| <= |zones|
  {
    if zones == [] then []
    else (if EndsWith(fqdn, zones[0].name) then [zones[0]] else []) + SuffixZones(zones[1..], fqdn)
  }

  /** One step of the `reduce`: a longer zone wins; of two zones with the same name, the later
      one wins unless it is private. */
  function Prefer(acc: HostedZone, zone: HostedZone): HostedZone {
    if |zone.name| > |acc.name| then zone
    else if zone.name == acc.name then (if !zone.privateZone then zone else acc)
    else acc
  }

  /** `reduce` of the remaining zones into the accumulator, from left to right. */
  function ReduceZones(acc: HostedZone, rest: seq<HostedZone>): HostedZone
    decreases |rest|
  {
    if rest == [] then acc else ReduceZones(Prefer(acc, rest[0]), rest[1..])
  }

  /** `findHostedZone`: the most specific hosted zone for a record, `None` when no zone
      matches (where Kotlin's `reduce` throws on the empty list). */
  function FindHostedZone(zones: seq<HostedZone>, record: string): Option<HostedZone> {
    var matching := SuffixZones(zones, DetermineFqdnRecord(record));
    if matching == [] then None else Some(ReduceZones(matching[0], matching[1..]))
  }

  lemma {:induction false} ReduceIsMember(acc: HostedZone, rest: seq<HostedZone>)
    ensures ReduceZones(acc, rest) in [acc] + rest
    decreases |rest|
  {
    if rest != [] {
      ReduceIsMember(Prefer(acc, rest[0]), rest[1..]);
    }
  }

  lemma {:induction false} ReduceIsLongest(acc: HostedZone, rest: seq<HostedZone>)
    ensures forall z :: z in [acc] + rest ==> |z.name| <= |ReduceZones(acc, rest).name|
    decreases |rest|
  {
    if rest != [] {
      ReduceIsLongest(Prefer(acc, rest[0]), rest[1..]);
    }
  }

  /** The accumulator's name survives unless a strictly longer name comes along. */
  lemma {:induction false} ReduceKeepsName(acc: HostedZone, rest: seq<HostedZone>)
    requires |ReduceZones(acc, rest).name| == |acc.name|
    ensures ReduceZones(acc, rest).name == acc.name
    decreases |rest|
  {
    if rest != [] {
      var next := Prefer(acc, rest[0]);
      ReduceIsLongest(next, rest[1..]);
      ReduceKeepsName(next, rest[1..]);
    }
  }

  /** A public zone that carries the selected name wins over every private one. */
  lemma {:induction false} ReducePrefersPublic(acc: HostedZone, rest: seq<HostedZone>, pub: HostedZone)
    requires pub in [acc] + rest && !pub.privateZone
    requires pub.name == ReduceZones(acc, rest).name
    ensures !ReduceZones(acc, rest).privateZone
    decreases |rest|
  {
    var r := ReduceZones(acc, rest);
    if rest == [] {
    } else {
      var next := Prefer(acc, rest[0]);
      ReduceIsLongest(next, rest[1..]);
      if pub in rest[1..] {
        ReducePrefersPublic(next, rest[1..], pub);
      } else if pub == acc {
        if |rest[0].name| > |acc.name| {
          assert false;
        }
        assert next.name == acc.name && !next.privateZone;
        ReducePrefersPublic(next, rest[1..], next);
      } else {
        assert pub == rest[0];
        if next == pub {
          ReducePrefersPublic(next, rest[1..], next);
        } else {
          assert next == acc && acc.name != pub.name && |pub.name| <= |acc.name|;
          ReduceKeepsName(next, rest[1..]);
          assert false;
        }
      }
    }
  }

  /** The selected zone matches the record, is listed, and no matching zone is more specific;
      a zone is selected exactly when some zone matches. */
  lemma FindHostedZoneMostSpecific(zones: seq<HostedZone>, record: string)
    ensures var fqdn := DetermineFqdnRecord(record);
      && (FindHostedZone(zones, record).None? <==> forall z :: z in zones ==> !EndsWith(fqdn, z.name))
      && (FindHostedZone(zones, record).Some? ==>
            var r := FindHostedZone(zones, record).value;
            && r in zones && EndsWith(fqdn, r.name)
            && forall z :: z in zones && EndsWith(fqdn, z.name) ==> |z.name| <= |r.name|)
  {
    var fqdn := DetermineFqdnRecord(record);
    var m := SuffixZones(zones, fqdn);
    if m != [] {
      assert [m[0]] + m[1..] == m;
      ReduceIsMember(m[0], m[1..]);
      ReduceIsLongest(m[0], m[1..]);
    } else {
      forall z | z in zones ensures !EndsWith(fqdn, z.name) {
        assert z !in m;
      }
    }
  }

  /** Among matching zones of the selected name a public one is preferred: the selected zone is
      private only if every matching zone of that name is. */
  lemma FindHostedZonePrefersPublic(zones: seq<HostedZone>, record: string, pub: HostedZone)
    requires pub in zones && EndsWith(DetermineFqdnRecord(record), pub.name) && !pub.privateZone
    requires FindHostedZone(zones, record).Some?
    requires |pub.name| == |FindHostedZone(zones, record).value.name|
    ensures !FindHostedZone(zones, record).value.privateZone
  {
    var fqdn := DetermineFqdnRecord(record);
    var m := SuffixZones(zones, fqdn);
    var r := FindHostedZone(zones, record).value;
    assert [m[0]] + m[1..] == m;
    ReduceIsMember(m[0], m[1..]);
    SuffixesOfEqualLength(fqdn, pub.name, r.name);
    ReducePrefersPublic(m[0], m[1..], pub);
  }

  // -------------------------------------------------------------- the change

  /** `formatChallengeValue`: Route 53 wants TXT values enclosed in quotation marks. */
  function FormatChallengeValue(challenge: string): (r: string)
    ensures EndsWith(r, "\"")
    ensures EndsWith(challenge, "\"") ==> r == challenge
    ensures !EndsWith(challenge, "\"") ==> r == "\"" + challenge + "\""
  {
    if EndsWith(challenge, "\"") then challenge else "\"" + challenge + "\""
  }

  lemma FormatChallengeValueIdempotent(challenge: string)
    ensures FormatChallengeValue(FormatChallengeValue(challenge)) == FormatChallengeValue(challenge)
  {
  }

  /** The change batch of `updateRoute53Record`: one change of the given action on the TXT set
      `recordName`, with a TTL of one minute and the quoted digest as its only value. */
  function ChallengeChanges(recordName: string, digest: string, action: ChangeAction): (r: seq<Change>)
    ensures |r| == 1 && r[0].action == action
    ensures r[0].recordSet == ResourceRecordSet(recordName, TXT, CHALLENGE_TTL, [FormatChallengeValue(digest)])
  {
    [Change(action, ResourceRecordSet(recordName, TXT, CHALLENGE_TTL, [FormatChallengeValue(digest)]))]
  }

  /** `updateRoute53Record`: submits the change to the selected zone and polls it.
      `statuses[0]` is the status returned on submission and `statuses[i]` the status returned by
      the i-th `getChange`; the result says which zone was used, what was submitted (nothing
      when no zone matches) and how many times the change was polled. */
  method UpdateRoute53Record(zones: seq<HostedZone>, recordName: string, digest: string,
                             action: ChangeAction, statuses: seq<ChangeStatus>)
    returns (r: Outcome<HostedZone>, submitted: Option<ChangeRequest>, polls: nat)
    requires exists k :: 0 <= k < |statuses| && statuses[k] != PENDING
    ensures FindHostedZone(zones, recordName).None? ==>
              r == Err(NoMatchingZone) && submitted == None && polls == 0
    ensures FindHostedZone(zones, recordName).Some? ==>
              && r == Ok(FindHostedZone(zones, recordName).value)
              && submitted == Some(ChangeRequest(r.value.id, ChallengeChanges(recordName, digest, action)))
              && polls < |statuses| && statuses[polls] != PENDING
              && forall j :: 0 <= j < polls ==> statuses[j] == PENDING
  {
    var hostedZone := FindHostedZone(zones, recordName);
    if hostedZone.None? {
      return Err(NoMatchingZone), None, 0;
    }
    var request := ChangeRequest(hostedZone.value.id, ChallengeChanges(recordName, digest, action));
    submitted := Some(request);
    polls := PollWhilePending(statuses, PENDING);
    r := Ok(hostedZone.value);
  }

  /** `addChallengeRecord`: upserts the record into the selected zone, waits until the change is
      no longer pending, and yields the name of that zone. */
  method AddChallengeRecord(zones: seq<HostedZone>, recordName: string, digest: string,
                            statuses: seq<ChangeStatus>)
    returns (r: Outcome<string>, submitted: Option<ChangeRequest>, polls: nat)
    requires exists k :: 0 <= k < |statuses| && statuses[k] != PENDING
    ensures r.Err? <==> FindHostedZone(zones, recordName).None?
    ensures r.Err? ==> r.error == NoMatchingZone && submitted == None
    ensures r.Ok? ==> (exists z :: z in zones && r.value == z.name &&
                        submitted == Some(ChangeRequest(z.id, ChallengeChanges(recordName, digest, UPSERT))))
    ensures r.Ok? ==>
              && r.value == FindHostedZone(zones, recordName).value.name
              && submitted.value.hostedZoneId == FindHostedZone(zones, recordName).value.id
              && polls < |statuses| && statuses[polls] != PENDING
              && forall j :: 0 <= j < polls ==> statuses[j] == PENDING
  {
    var zone;
    zone, submitted, polls := UpdateRoute53Record(zones, recordName, digest, UPSERT, statuses);
    if zone.Err? {
      return Err(zone.error), submitted, polls;
    }
    FindHostedZoneMostSpecific(zones, recordName);
    r := Ok(zone.value.name);
  }

  /** `removeChallengeRecord`: deletes the record set that `AddChallengeRecord` upserted, in the
      same selected zone, and waits until the change is no longer pending. */
  method RemoveChallengeRecord(zones: seq<HostedZone>, recordName: string, digest: string,
                               statuses: seq<ChangeStatus>)
    returns (r: Outcome<()>, submitted: Option<ChangeRequest>, polls: nat)
    requires exists k :: 0 <= k < |statuses| && statuses[k] != PENDING
    ensures r.Err? <==> FindHostedZone(zones, recordName).None?
    ensures r.Err? ==> r.error == NoMatchingZone && submitted == None
    ensures r.Ok? ==>
              && submitted == Some(ChangeRequest(FindHostedZone(zones, recordName).value.id,
                                                 ChallengeChanges(recordName, digest, DELETE)))
              && polls < |statuses| && statuses[polls] != PENDING
              && forall j :: 0 <= j < polls ==> statuses[j] == PENDING
  {
    var zone;
    zone, submitted, polls := UpdateRoute53Record(zones, recordName, digest, DELETE, statuses);
    r := if zone.Err? then Err(zone.error) else Ok(());
  }

  // ---------------------------------------------------- the recorded scenarios

  /** Of `tazj.in.`, `test.tazj.in.` and `other.tazj.in.`, the record
      `_acme-challenge.some.test.tazj.in` belongs to `test.tazj.in.`. */
  lemma CorrectHostedZoneIsFound()
    ensures FindHostedZone(
              [HostedZone("incorrect-1", "tazj.in.", false),
               HostedZone("correct", "test.tazj.in.", false),
               HostedZone("incorrect-2", "other.tazj.in.", false)],
              "_acme-challenge.some.test.tazj.in")
            == Some(HostedZone("correct", "test.tazj.in.", false))
  {
    var fqdn := DetermineFqdnRecord("_acme-challenge.some.test.tazj.in");
    assert fqdn == "_acme-challenge.some.test.tazj.in.";
    assert EndsWith(fqdn, "tazj.in.");
    assert EndsWith(fqdn, "test.tazj.in.");
    assert fqdn[|fqdn| - |"other.tazj.in."|..] != "other.tazj.in.";
  }

  /** A public and a private zone both named `test.tazj.in.`: the public one is chosen. */
  lemma CorrectPublicHostedZoneIsFound()
    ensures FindHostedZone(
              [HostedZone("incorrect-1", "tazj.in.", true),
               HostedZone("private", "test.tazj.in.", true),
               HostedZone("public", "test.tazj.in.", false),
               HostedZone("incorrect-2", "other.tazj.in.", true)],
              "_acme-challenge.some.test.tazj.in")
            == Some(HostedZone("public", "test.tazj.in.", false))
  {
    var fqdn := DetermineFqdnRecord("_acme-challenge.some.test.tazj.in");
    assert fqdn == "_acme-challenge.some.test.tazj.in.";
    assert EndsWith(fqdn, "tazj.in.");
    assert EndsWith(fqdn, "test.tazj.in.");
    assert fqdn[|fqdn| - |"other.tazj.in."|..] != "other.tazj.in.";
  }
}
