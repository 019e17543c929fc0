/** What every DNS challenge responder shares: the fully qualified form of a record name, which
    is how both Route 53 and Cloud DNS write the DNS names of their zones, and the wait for a
    submitted change to leave the pending state. */
module DnsResponder {
  import opened Strings

  /** `determineFqdnRecord`: the record name with a trailing full stop. */
  function DetermineFqdnRecord(record: string): (r: string)
    ensures EndsWith(r, ".")
    ensures EndsWith(record, ".") ==> r == record
    ensures !EndsWith(record, ".") ==> |r| == |record| + 1 && StartsWith(r, record)
  {
    if EndsWith(record, ".") then record else record + "."
  }

  /** Normalising twice is normalising once. */
  lemma FqdnIdempotent(record: string)
    ensures DetermineFqdnRecord(DetermineFqdnRecord(record)) == DetermineFqdnRecord(record)
  {
  }

  /** A name that differs from its normal form only lacked the full stop. */
  lemma FqdnAppendsOnlyDot(record: string)
    requires DetermineFqdnRecord(record) != record
    ensures DetermineFqdnRecord(record) == record + "."
  {
    var r := DetermineFqdnRecord(record);
    assert r[..|record|] == record;
    assert r[|record|..] == ".";
    assert r == r[..|record|] + r[|record|..];
  }

  /** The polling loop of both responders (`waitForUpdate` of Cloud DNS, the loop at the end of
      `updateRoute53Record`). `statuses[0]` is the status the provider returned for the submitted
      change and `statuses[i]` the status returned by the i-th poll; polling stops at the first
      status other than `pending` and yields its index, the number of polls made. */
  method PollWhilePending<S(==)>(statuses: seq<S>, pending: S) returns (polls: nat)
    requires exists k :: 0 <= k < |statuses| && statuses[k] != pending
    ensures polls < |statuses| && statuses[polls] != pending
    ensures forall j :: 0 <= j < polls ==> statuses[j] == pending
  {
    ghost var settled :| 0 <= settled < |statuses| && statuses[settled] != pending;
    polls := 0;
    while statuses[polls] == pending
      invariant 0 <= polls <= settled
      invariant forall j :: 0 <= j < polls ==> statuses[j] == pending
      decreases settled - polls
    {
      polls := polls + 1;
    }
  }
}
