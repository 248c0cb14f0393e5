/**
 The triage pipeline and its incidents table.

 One run takes a signal through classify, dedup, decide and notify.  Runs are sequential;
 the LLM's answer and the outcome of each publish attempt are inputs.  Between runs an
 operator may resolve an incident and the retention job may prune.  A dedup key is the pair
 it hashes, and times are seconds.
 */
module Triage {
  import opened Wrappers

  datatype Key = Key(source: string, fingerprint: string)

  datatype Status = Open | AlertFailed | Resolved

  datatype Row = Row(severity: string, title: string, body: string, count: nat, firstSeen: real, lastSeen: real, status: Status)

  datatype Signal = Signal(source: string, fingerprint: string, title: string, body: string, suggested: string)

  /** The parsed LLM answer; nothing in it when the call or the parse failed. */
  datatype Answer = Answer(severity: Option<string>, hypothesis: string)

  datatype Config = Config(dedupWindowMinutes: int, notifyMaxAttempts: int)

  const VALID_SEVERITY := {"info", "warning", "critical"}

  function DedupKey(sig: Signal): Key {
    Key(sig.source, sig.fingerprint)
  }

  /** Two signals are the same problem when both their source and their fingerprint agree. */
  lemma SameProblem(a: Signal, b: Signal)
    ensures DedupKey(a) == DedupKey(b) <==> a.source == b.source && a.fingerprint == b.fingerprint
  {
  }

  /** The answered severity if valid, else the suggested one if valid, else "warning". */
  function Classify(suggested: string, answered: Option<string>): (severity: string)
    ensures severity == "info" || severity == "warning" || severity == "critical"
    ensures answered.Some? && answered.value in {"info", "warning", "critical"} ==> severity == answered.value
    ensures (answered.None? || answered.value !in {"info", "warning", "critical"}) ==>
      if suggested in {"info", "warning", "critical"} then severity == suggested else severity == "warning"
    ensures severity == "critical" ==> answered == Some("critical") || suggested == "critical"
  {
    if answered.Some? && answered.value in VALID_SEVERITY then answered.value
    else if suggested in VALID_SEVERITY then suggested
    else "warning"
  }

  function Severity(sig: Signal, answer: Answer): string {
    Classify(sig.suggested, answer.severity)
  }

  /** The stored text: the signal's, with the hypothesis, if there is one, two lines below. */
  function Body(sig: Signal, answer: Answer): (body: string)
    ensures sig.body <= body && (answer.hypothesis == "" ==> body == sig.body)
    ensures answer.hypothesis != "" ==> body[|sig.body|..] == "\n\nhypothesis: " + answer.hypothesis
  {
    if answer.hypothesis != "" then sig.body + "\n\nhypothesis: " + answer.hypothesis else sig.body
  }

  // ---------- one step on the table ----------

  function Upserted(prev: Option<Row>, severity: string, title: string, body: string, now: real): Row {
    match prev
    case None => Row(severity, title, body, 1, now, now, Open)
    case Some(p) => Row(severity, title, body, p.count + 1, p.firstSeen, now, if p.status.Resolved? then Open else p.status)
  }

  function Suppressed(cfg: Config, prev: Option<Row>, now: real): bool {
    prev.Some? && now - prev.value.lastSeen < cfg.dedupWindowMinutes as real * 60.0
  }

  /** The decide node: does this occurrence page? */
  function Alerts(cfg: Config, prev: Option<Row>, row: Row, now: real): bool {
    row.status.AlertFailed? || !(Suppressed(cfg, prev, now) && row.severity != "critical")
  }

  /** max(1, n) */
  function MaxAttempts(cfg: Config): (most: nat)
    ensures most >= 1 && most >= cfg.notifyMaxAttempts && (most == 1 || most == cfg.notifyMaxAttempts)
  {
    if cfg.notifyMaxAttempts > 1 then cfg.notifyMaxAttempts else 1
  }

  predicate Succeeds(outcomes: seq<bool>, attempt: nat) {
    attempt < |outcomes| && outcomes[attempt]
  }

  /** One of the allowed publish attempts succeeds. */
  predicate Delivered(cfg: Config, outcomes: seq<bool>) {
    exists a: nat :: a < MaxAttempts(cfg) && a < |outcomes| && Succeeds(outcomes, a)
  }

  type Table = map<Key, Row>

  function Get(rows: Table, k: Key): Option<Row> {
    if k in rows then Some(rows[k]) else None
  }

  datatype Event =
    | Occur(sig: Signal, answer: Answer, at: real, outcomes: seq<bool>)
    | Resolve(key: Key)
    | Prune(at: real, days: int)

  function NewRow(rows: Table, e: Event): Row
    requires e.Occur?
  {
    Upserted(Get(rows, DedupKey(e.sig)), Severity(e.sig, e.answer), e.sig.title, Body(e.sig, e.answer), e.at)
  }

  function Pages(cfg: Config, rows: Table, e: Event): bool {
    e.Occur? && Alerts(cfg, Get(rows, DedupKey(e.sig)), NewRow(rows, e), e.at)
  }

  /** A retention prune deletes resolved rows not seen for `days` days. */
  predicate Expired(row: Row, at: real, days: int) {
    days > 0 && row.status.Resolved? && row.lastSeen < at - days as real * 86400.0
  }

  function Apply(cfg: Config, rows: Table, e: Event): Table {
    match e
    case Occur(sig, _, _, outcomes) =>
      var row := NewRow(rows, e);
      var status :=
        if !Pages(cfg, rows, e) then row.status
        else if !Delivered(cfg, outcomes) then AlertFailed
        else if row.status.AlertFailed? then Open
        else row.status;
      rows[DedupKey(sig) := row.(status := status)]
    case Resolve(key) => if key in rows then rows[key := rows[key].(status := Resolved)] else rows
    case Prune(at, days) => map k | k in rows && !Expired(rows[k], at, days) :: rows[k]
  }

  // ---------- the code ----------

  datatype Incident = Incident(row: Row, isNew: bool, secondsSincePrev: Option<real>)

  class IncidentStore {
    var rows: Table

    constructor ()
      ensures rows == map[]
    {
      rows := map[];
    }

    method Upsert(key: Key, severity: string, title: string, body: string, now: real) returns (incident: Incident)
      modifies this
      ensures rows == old(rows)[key := Upserted(Get(old(rows), key), severity, title, body, now)]
      ensures incident.row == rows[key]
      ensures incident.isNew == (key !in old(rows))
      ensures incident.secondsSincePrev == if key in old(rows) then Some(now - old(rows)[key].lastSeen) else None
    {
      var prev := if key in rows then Some(rows[key].lastSeen) else None;
      if key in rows {
        var p := rows[key];
        rows := rows[key := Row(severity, title, body, p.count + 1, p.firstSeen, now, if p.status == Resolved then Open else p.status)];
      } else {
        rows := rows[key := Row(severity, title, body, 1, now, now, Open)];
      }
      var row := rows[key];
      incident := Incident(row, prev.None?, if prev.Some? then Some(row.lastSeen - prev.value) else None);
    }

    method MarkAlertFailed(key: Key)
      modifies this
      ensures rows == if key in old(rows) then old(rows)[key := old(rows)[key].(status := AlertFailed)] else old(rows)
    {
      if key in rows {
        rows := rows[key := rows[key].(status := AlertFailed)];
      }
    }

    method ClearAlertFailed(key: Key)
      modifies this
      ensures rows ==
        if key in old(rows) && old(rows)[key].status.AlertFailed? then old(rows)[key := old(rows)[key].(status := Open)]
        else old(rows)
    {
      if key in rows && rows[key].status.AlertFailed? {
        rows := rows[key := rows[key].(status := Open)];
      }
    }

    method PruneResolved(retentionDays: int, now: real, cfg: Config)
      modifies this
      ensures rows == Apply(cfg, old(rows), Prune(now, retentionDays))
      ensures forall k :: k in rows <==>
        k in old(rows) && !(retentionDays > 0 && old(rows)[k].status == Resolved && now - old(rows)[k].lastSeen > retentionDays as real * 86400.0)
      ensures forall k :: k in rows ==> rows[k] == old(rows)[k]
    {
      if retentionDays <= 0 {
        assert rows == Apply(cfg, rows, Prune(now, retentionDays));
        return;
      }
      rows := map k | k in rows && !(rows[k].status == Resolved && rows[k].lastSeen < now - retentionDays as real * 86400.0) :: rows[k];
    }
  }

  /** The notify node: publish until one attempt succeeds or all are used up. */
  method Notify(store: IncidentStore, cfg: Config, key: Key, incident: Incident, outcomes: seq<bool>)
    returns (alerted: bool, calls: nat)
    requires key in store.rows && store.rows[key] == incident.row
    modifies store
    ensures alerted == Delivered(cfg, outcomes)
    // at most max(1, n) calls, at most one success, and it is the last call
    ensures 1 <= calls <= MaxAttempts(cfg)
    ensures forall a: nat :: a < calls && Succeeds(outcomes, a) ==> alerted && a == calls - 1
    ensures !alerted ==> calls == MaxAttempts(cfg)
    ensures store.rows == old(store.rows)[key := incident.row.(status :=
        if !alerted then AlertFailed else if incident.row.status.AlertFailed? then Open else incident.row.status)]
  {
    var attempts := if cfg.notifyMaxAttempts > 1 then cfg.notifyMaxAttempts else 1;
    calls := 0;
    var attempt := 1;
    while attempt < attempts + 1
      invariant 1 <= attempt <= attempts + 1 && calls == attempt - 1
      invariant forall a: nat :: a < calls ==> !Succeeds(outcomes, a)
      invariant store.rows == old(store.rows)
    {
      calls := calls + 1;
      if Succeeds(outcomes, attempt - 1) {
        if incident.row.status.AlertFailed? {
          store.ClearAlertFailed(key);
        }
        return true, calls;
      }
      attempt := attempt + 1;
    }
    store.MarkAlertFailed(key);
    return false, calls;
  }

  /** One run of the graph. */
  method RunTriage(store: IncidentStore, cfg: Config, sig: Signal, answer: Answer, now: real, outcomes: seq<bool>)
    returns (alerted: bool, calls: nat)
    modifies store
    ensures store.rows == Apply(cfg, old(store.rows), Occur(sig, answer, now, outcomes))
    ensures calls <= 1 || calls <= cfg.notifyMaxAttempts
    // the row of this source and fingerprint, and no other, is written
    ensures Key(sig.source, sig.fingerprint) in store.rows && store.rows[Key(sig.source, sig.fingerprint)].lastSeen == now
    ensures forall k :: k != Key(sig.source, sig.fingerprint) ==> Get(store.rows, k) == Get(old(store.rows), k)
    ensures calls > 0 <==> Pages(cfg, old(store.rows), Occur(sig, answer, now, outcomes))
    ensures alerted <==> calls > 0 && Delivered(cfg, outcomes)
  {
    var severity := Classify(sig.suggested, answer.severity);
    var key := DedupKey(sig);
    var incident := store.Upsert(key, severity, sig.title, Body(sig, answer), now);
    var windowSeconds := cfg.dedupWindowMinutes as real * 60.0;
    var suppressed := !incident.isNew && incident.secondsSincePrev.Some? && incident.secondsSincePrev.value < windowSeconds;
    var alert := incident.row.status.AlertFailed? || !(suppressed && severity != "critical");
    if !alert {
      return false, 0;
    }
    alerted, calls := Notify(store, cfg, key, incident, outcomes);
  }
}
