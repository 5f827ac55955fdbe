/** Verification codes: a cache entry per purpose and target, and an audit record per issued code. */
module VerificationCodes {
  import opened Base

  datatype TargetType = SMS | Email

  datatype Purpose = Register | Login | ResetPassword | BindPhone | ChangePhone | BindEmail | ChangeEmail

  /** What a code is issued for, after validation and normalisation of the request. */
  datatype Slot = Slot(target: string, kind: TargetType, purpose: Purpose)

  /** A normalised phone number is a plus sign and digits, an e-mail address contains an at sign. */
  predicate Normalised(slot: Slot) { slot.kind == Email <==> '@' in slot.target }

  /** The cache key leaves the target type out. */
  datatype CacheKey = CacheKey(purpose: Purpose, target: string)

  function KeyOf(slot: Slot): CacheKey { CacheKey(slot.purpose, slot.target) }

  /** The keyed digest of a code, taken as injective. */
  datatype Digest = Digest(purpose: Purpose, target: string, code: string)

  function HashCode(slot: Slot, code: string): Digest { Digest(slot.purpose, slot.target, code) }

  datatype CodeStatus = Pending | Verified | Expired | Locked | Cancelled

  /** A code id spells out the clock in nanoseconds and a random suffix. */
  datatype CodeId = CodeId(nanos: int, suffix: string)

  datatype Record = Record(
    codeId: CodeId, slot: Slot, hash: Digest, status: CodeStatus, attempts: nat, createdAt: int)

  datatype Entry = Entry(
    codeId: CodeId, kind: TargetType, hash: Digest, expiresAt: int, attempts: nat, maxAttempts: int)

  type Cache = map<CacheKey, Entry>

  /** Records are listed in primary-key order. */
  datatype Store = Store(cache: Cache, records: seq<Record>)

  datatype Config = Config(expireSeconds: int, maxAttempts: int, devCode: Option<string>)

  /** RFC 3339 text without a fraction drops the part below a second. */
  function WholeSeconds(t: int): int { t / SECOND * SECOND }

  // ---------- The record table ----------

  function SetStatus(records: seq<Record>, codeId: CodeId, status: CodeStatus): (r: seq<Record>)
    ensures |r| == |records|
  {
    seq(|records|, i requires 0 <= i < |records| =>
      if records[i].codeId == codeId then records[i].(status := status) else records[i])
  }

  function AddAttempt(records: seq<Record>, codeId: CodeId): (r: seq<Record>)
    ensures |r| == |records|
  {
    seq(|records|, i requires 0 <= i < |records| =>
      if records[i].codeId == codeId then records[i].(attempts := records[i].attempts + 1) else records[i])
  }

  predicate HasId(records: seq<Record>, codeId: CodeId) {
    exists i :: 0 <= i < |records| && records[i].codeId == codeId
  }

  /** ORDER BY created_at DESC, then by primary key: the newest record, the older of two with equal times. */
  function GetLatest(records: seq<Record>, slot: Slot): (r: Option<nat>)
    ensures r.Some? ==> r.value < |records| && records[r.value].slot == slot
  {
    if records == [] then None
    else
      var k := |records| - 1;
      var earlier := GetLatest(records[..k], slot);
      if records[k].slot == slot && (earlier.None? || records[earlier.value].createdAt < records[k].createdAt)
      then Some(k) else earlier
  }

  function CancelPrevious(records: seq<Record>, slot: Slot): (r: seq<Record>)
    ensures |r| == |records|
  {
    var latest := GetLatest(records, slot);
    if latest.Some? && records[latest.value].status == Pending
    then SetStatus(records, records[latest.value].codeId, Cancelled) else records
  }

  // ---------- Operations ----------

  /**
   What can go wrong while a code is sent. `delFails` is the deletion of the cache entry and `statusFails` the
   cancellation of the record in the clean-up, whose errors the manager discards.
   */
  datatype SendFaults = SendFaults(
    limited: bool, cancelFails: bool, cacheFails: bool, expireFails: bool, createFails: bool, dispatchFails: bool,
    delFails: bool, statusFails: bool)

  /** `attemptFails`, `delFails` and `statusFails` are errors the manager discards. */
  datatype VerifyFaults = VerifyFaults(
    loadFails: bool, queryFails: bool, countFails: bool, markFails: bool,
    attemptFails: bool, delFails: bool, statusFails: bool)

  const SMOOTH := VerifyFaults(false, false, false, false, false, false, false)

  datatype Issue = Issue(slot: Slot, suffix: string, code: string, now: int)

  function IdOf(i: Issue): CodeId { CodeId(i.now, i.suffix) }

  function NewRecord(i: Issue, status: CodeStatus): Record {
    Record(IdOf(i), i.slot, HashCode(i.slot, i.code), status, 0, i.now)
  }

  function NewEntry(cfg: Config, i: Issue): Entry {
    Entry(IdOf(i), i.slot.kind, HashCode(i.slot, i.code),
          WholeSeconds(i.now + cfg.expireSeconds * SECOND), 0, cfg.maxAttempts)
  }

  function Dropped(cache: Cache, key: CacheKey, delFails: bool): Cache {
    if delFails then cache else cache - {key}
  }

  /** The call gets as far as writing the new cache entry. */
  predicate Writes(f: SendFaults) { !f.limited && !f.cancelFails && !f.cacheFails }

  function SentCache(s: Store, cfg: Config, i: Issue, f: SendFaults): Cache {
    if !Writes(f) then s.cache
    else
      var written := s.cache[KeyOf(i.slot) := NewEntry(cfg, i)];
      if f.expireFails || f.createFails || HasId(s.records, IdOf(i)) || f.dispatchFails
      then Dropped(written, KeyOf(i.slot), f.delFails) else written
  }

  function SentRecords(records: seq<Record>, i: Issue, f: SendFaults): seq<Record> {
    if f.limited || f.cancelFails then records
    else
      var cancelled := CancelPrevious(records, i.slot);
      if f.cacheFails || f.expireFails || f.createFails || HasId(records, IdOf(i)) then cancelled
      else cancelled + [NewRecord(i, if f.dispatchFails && !f.statusFails then Cancelled else Pending)]
  }

  function Sent(s: Store, cfg: Config, i: Issue, f: SendFaults): Store {
    Store(SentCache(s, cfg, i, f), SentRecords(s.records, i, f))
  }

  datatype Outcome =
    | Accepted(codeId: CodeId)
    | Wrong(codeId: CodeId, locked: bool)
    | TimedOut(codeId: CodeId)
    | Missing(latest: Option<CodeStatus>)
    | OtherType
    | Bypassed
    | StoreError

  /** Without a cache entry the newest record decides which error is reported. */
  function MissingOutcome(records: seq<Record>, slot: Slot): Outcome {
    var latest := GetLatest(records, slot);
    Missing(if latest.Some? then Some(records[latest.value].status) else None)
  }

  /** What a verification answers. */
  function Ruling(s: Store, cfg: Config, slot: Slot, code: string, now: int, f: VerifyFaults): Outcome {
    if f.loadFails then StoreError
    else if KeyOf(slot) !in s.cache then
      if cfg.devCode == Some(code) then Bypassed
      else if f.queryFails then StoreError
      else MissingOutcome(s.records, slot)
    else
      var e := s.cache[KeyOf(slot)];
      if e.kind != slot.kind then OtherType
      else if now > e.expiresAt then TimedOut(e.codeId)
      else if HashCode(slot, code) != e.hash then
        if f.countFails then StoreError else Wrong(e.codeId, e.attempts + 1 >= e.maxAttempts)
      else if f.markFails then StoreError
      else Accepted(e.codeId)
  }

  /** The cache after a verification with that answer. */
  function RuledCache(cache: Cache, key: CacheKey, o: Outcome, f: VerifyFaults): Cache {
    match o
    case Accepted(_) => Dropped(cache, key, f.delFails)
    case TimedOut(_) => Dropped(cache, key, f.delFails)
    case Wrong(_, locked) =>
      if key !in cache then cache
      else
        var counted := cache[key := cache[key].(attempts := cache[key].attempts + 1)];
        if locked then Dropped(counted, key, f.delFails) else counted
    case _ => cache
  }

  /** The records after a verification with that answer. */
  function RuledRecords(records: seq<Record>, o: Outcome, f: VerifyFaults): seq<Record> {
    match o
    case Accepted(id) => SetStatus(records, id, Verified)
    case TimedOut(id) => if f.statusFails then records else SetStatus(records, id, Expired)
    case Wrong(id, locked) =>
      var counted := if f.attemptFails then records else AddAttempt(records, id);
      if locked && !f.statusFails then SetStatus(counted, id, Locked) else counted
    case _ => records
  }

  function Checked(s: Store, cfg: Config, slot: Slot, code: string, now: int, f: VerifyFaults): (Store, Outcome) {
    var o := Ruling(s, cfg, slot, code, now, f);
    (Store(RuledCache(s.cache, KeyOf(slot), o, f), RuledRecords(s.records, o, f)), o)
  }

  /** The manager over its two stores; a slot of None stands for a target or purpose that validation rejected. */
  class VerificationManager {
    const cfg: Config
    var cache: Cache
    var records: seq<Record>

    constructor (cfg: Config)
      ensures this.cfg == cfg && cache == map[] && records == []
    {
      this.cfg, cache, records := cfg, map[], [];
    }

    method CancelPreviousCode(slot: Slot)
      modifies this`records
      ensures records == CancelPrevious(old(records), slot)
    {
      var latest := GetLatest(records, slot);
      if latest.None? {
        return;
      }
      if records[latest.value].status == Pending {
        records := SetStatus(records, records[latest.value].codeId, Cancelled);
      }
    }

    /** An attempt to delete a cache entry, its error discarded. */
    method Del(key: CacheKey, fails: bool)
      modifies this`cache
      ensures cache == Dropped(old(cache), key, fails)
    {
      if !fails {
        cache := cache - {key};
      }
    }

    method SendCode(slot: Option<Slot>, suffix: string, code: string, now: int, f: SendFaults)
      returns (sent: bool)
      modifies this
      ensures slot.None? ==> !sent && Store(cache, records) == old(Store(cache, records))
      ensures slot.Some? ==>
        && Store(cache, records) == Sent(old(Store(cache, records)), cfg, Issue(slot.value, suffix, code, now), f)
        && (sent <==> Writes(f) && !f.expireFails && !f.createFails && !f.dispatchFails
                      && !HasId(old(records), CodeId(now, suffix)))
    {
      if slot.None? || f.limited || f.cancelFails {
        return false;
      }
      var issue := Issue(slot.value, suffix, code, now);
      CancelPreviousCode(slot.value);
      CancelKeepsIds(old(records), slot.value, IdOf(issue));
      var key := KeyOf(slot.value);
      if f.cacheFails {
        return false;
      }
      cache := cache[key := NewEntry(cfg, issue)];
      if f.expireFails {
        Del(key, f.delFails);
        return false;
      }
      if f.createFails || HasId(records, IdOf(issue)) {
        Del(key, f.delFails);
        return false;
      }
      var before := records;
      records := records + [NewRecord(issue, Pending)];
      if f.dispatchFails {
        Del(key, f.delFails);
        if !f.statusFails {
          records := SetStatus(records, IdOf(issue), Cancelled);
          assert records == before + [NewRecord(issue, Cancelled)];
        }
        return false;
      }
      return true;
    }

    method VerifyCode(slot: Option<Slot>, code: string, now: int, f: VerifyFaults) returns (r: Option<Outcome>)
      modifies this
      ensures slot.None? ==> r.None? && Store(cache, records) == old(Store(cache, records))
      ensures slot.Some? ==>
        && r.Some?
        && (Store(cache, records), r.value) == Checked(old(Store(cache, records)), cfg, slot.value, code, now, f)
    {
      if slot.None? {
        return None;
      }
      if f.loadFails {
        return Some(StoreError);
      }
      var key := KeyOf(slot.value);
      if key !in cache {
        if cfg.devCode == Some(code) {
          return Some(Bypassed);
        }
        return Some(if f.queryFails then StoreError else MissingOutcome(records, slot.value));
      }
      var e := cache[key];
      if e.kind != slot.value.kind {
        return Some(OtherType);
      }
      if now > e.expiresAt {
        Del(key, f.delFails);
        records := if f.statusFails then records else SetStatus(records, e.codeId, Expired);
        return Some(TimedOut(e.codeId));
      }
      if HashCode(slot.value, code) != e.hash {
        if f.countFails {
          return Some(StoreError);
        }
        var attempts := e.attempts + 1;
        cache := cache[key := e.(attempts := attempts)];
        records := if f.attemptFails then records else AddAttempt(records, e.codeId);
        if attempts >= e.maxAttempts {
          Del(key, f.delFails);
          records := if f.statusFails then records else SetStatus(records, e.codeId, Locked);
          return Some(Wrong(e.codeId, true));
        }
        return Some(Wrong(e.codeId, false));
      }
      if f.markFails {
        return Some(StoreError);
      }
      records := SetStatus(records, e.codeId, Verified);
      Del(key, f.delFails);
      return Some(Accepted(e.codeId));
    }
  }

  lemma CancelKeepsIds(records: seq<Record>, slot: Slot, codeId: CodeId)
    ensures HasId(CancelPrevious(records, slot), codeId) <==> HasId(records, codeId)
  {
    var r := CancelPrevious(records, slot);
    assert forall i :: 0 <= i < |records| ==> r[i].codeId == records[i].codeId;
  }
}
