/** AppStore's Create, UpdateSAMLConfig, Update and Delete as sequences of table
    calls (internal/store/app_store.go), any number of them interleaved, each call
    free to fail without effect.

    Hypothesis of the runs: at most one rename, update or delete of an application is
    in flight at a time (its marker deletes are unconditional). Creates interleave
    freely, and the ids they generate are fresh. */
module AppProtocol {
  import opened Wrappers
  import opened Keys
  import opened Table

  function EntityGSIPK(tenant: string, entityID: string): string { "ENTITY#" + tenant + "#" + entityID }

  function ClientGSIPK(id: string): string { "CLIENTID#" + id }

  function RowOf(rows: Rows, tenant: string, id: string): Option<AppRow> {
    var k := Key(tenant, AppSK(id));
    if k in rows && rows[k].AppItem? then Some(rows[k].row) else None
  }

  /** The application holding the (tenant, entityID) reservation. */
  function MarkerOf(rows: Rows, tenant: string, entityID: string): Option<string> {
    var k := Key(tenant, EntityUniqueSK(entityID));
    if k in rows && rows[k].MarkerItem? then Some(rows[k].appID) else None
  }

  function SamlOf(rows: Rows, tenant: string, id: string): Option<SAMLConfig> {
    var k := Key(tenant, SamlSK(id));
    if k in rows && rows[k].SamlItem? then Some(rows[k].saml) else None
  }

  datatype Outcome = Created(id: string) | Done | DuplicateEntityID | Missing | StoreFailed

  /** A call in progress, named after the table call it makes next. */
  datatype Op =
    | CreateReserve(tenant: string, id: string, app: Application, cfg: SAMLConfig)
    | CreateApp(tenant: string, id: string, app: Application, samlCfg: Option<SAMLConfig>)
    | CreateRollback(tenant: string, id: string, entityID: string)
    | CreateSaml(tenant: string, id: string, cfg: SAMLConfig)
    | RenameGet(tenant: string, id: string, cfg: SAMLConfig)
    | RenameReload(tenant: string, id: string, cfg: SAMLConfig)
    | RenameReserve(tenant: string, id: string, cfg: SAMLConfig, raw: AppRow)
    | RenameSaml(tenant: string, id: string, cfg: SAMLConfig, raw: AppRow)
    | RenameRollback(tenant: string, id: string, entityID: string)
    | RenameApp(tenant: string, id: string, cfg: SAMLConfig, raw: AppRow)
    | RenameRelease(tenant: string, id: string, entityID: string)
    | UpdateGet(tenant: string, id: string, app: Application)
    | UpdateReload(tenant: string, id: string, app: Application)
    | UpdatePut(tenant: string, id: string, app: Application, raw: AppRow)
    | DeleteGet(tenant: string, id: string)
    | DeleteApp(tenant: string, id: string, raw: AppRow)
    | DeleteSaml(tenant: string, id: string, entityID: string)
    | DeleteOidc(tenant: string, id: string, entityID: string)
    | DeleteRelease(tenant: string, id: string, entityID: string)
    | Finished(outcome: Outcome)

  function StartCreate(tenant: string, id: string, app: Application, cfg: Option<SAMLConfig>): Op {
    if cfg.Some? then CreateReserve(tenant, id, app.(id := id), cfg.value)
    else CreateApp(tenant, id, app.(id := id), None)
  }

  function NewRow(op: Op): AppRow
    requires op.CreateApp?
  {
    var gsi1SK := TenantPK(op.tenant);
    match op.samlCfg
    case Some(cfg) => AppRow(op.app, cfg.entityID, EntityGSIPK(op.tenant, cfg.entityID), gsi1SK)
    case None => AppRow(op.app, "", ClientGSIPK(op.id), gsi1SK)
  }

  function RenamedRow(op: Op): AppRow
    requires op.RenameApp?
  {
    op.raw.(gsi1PK := EntityGSIPK(op.tenant, op.cfg.entityID), entityID := op.cfg.entityID)
  }

  /** After the release of the old reservation is due. */
  function AfterRename(op: Op): Op
    requires op.RenameApp?
  {
    if op.raw.entityID != "" && op.cfg.entityID != op.raw.entityID
    then RenameRelease(op.tenant, op.id, op.raw.entityID)
    else Finished(Done)
  }

  /** One table call of `op`: the new table and what the call does next. A rollback, a
      release and the deletes after the application row are best effort. */
  function Step(rows: Rows, op: Op, fault: bool): (r: (Rows, Op))
    requires !op.Finished?
  {
    var appKey := Key(op.tenant, AppSK(op.id));
    match op
    case CreateReserve(t, id, app, cfg) =>
      var k := Key(t, EntityUniqueSK(cfg.entityID));
      if fault then (rows, Finished(StoreFailed))
      else if k in rows then (rows, Finished(DuplicateEntityID))
      else (rows[k := MarkerItem(cfg.entityID, id)], CreateApp(t, id, app, Some(cfg)))
    case CreateApp(t, id, app, cfg) =>
      if fault then (rows, if cfg.Some? then CreateRollback(t, id, cfg.value.entityID) else Finished(StoreFailed))
      else (rows[appKey := AppItem(NewRow(op))],
            if cfg.Some? then CreateSaml(t, id, cfg.value) else Finished(Created(id)))
    case CreateRollback(t, id, e) =>
      (if fault then rows else rows - {Key(t, EntityUniqueSK(e))}, Finished(StoreFailed))
    case CreateSaml(t, id, cfg) =>
      if fault then (rows, Finished(StoreFailed))
      else (rows[Key(t, SamlSK(id)) := SamlItem(cfg)], Finished(Created(id)))
    case RenameGet(t, id, cfg) =>
      if fault then (rows, Finished(StoreFailed))
      else if RowOf(rows, t, id).None? then (rows, Finished(Missing))
      else (rows, RenameReload(t, id, cfg))
    case RenameReload(t, id, cfg) =>
      if fault then (rows, Finished(StoreFailed))
      else if RowOf(rows, t, id).None? then (rows, Finished(Missing))
      else
        var raw := RowOf(rows, t, id).value;
        (rows, if cfg.entityID != raw.entityID then RenameReserve(t, id, cfg, raw) else RenameSaml(t, id, cfg, raw))
    case RenameReserve(t, id, cfg, raw) =>
      var k := Key(t, EntityUniqueSK(cfg.entityID));
      if fault then (rows, Finished(StoreFailed))
      else if k in rows then (rows, Finished(DuplicateEntityID))
      else (rows[k := MarkerItem(cfg.entityID, id)], RenameSaml(t, id, cfg, raw))
    case RenameSaml(t, id, cfg, raw) =>
      if fault then (rows,
                     if cfg.entityID != raw.entityID then RenameRollback(t, id, cfg.entityID)
                       else Finished(StoreFailed))
      else (rows[Key(t, SamlSK(id)) := SamlItem(cfg)], RenameApp(t, id, cfg, raw))
    case RenameRollback(t, id, e) =>
      (if fault then rows else rows - {Key(t, EntityUniqueSK(e))}, Finished(StoreFailed))
    case RenameApp(t, id, cfg, raw) =>
      if fault then (rows, Finished(StoreFailed))
      else (rows[appKey := AppItem(RenamedRow(op))], AfterRename(op))
    case RenameRelease(t, id, e) =>
      (if fault then rows else rows - {Key(t, EntityUniqueSK(e))}, Finished(Done))
    case UpdateGet(t, id, app) =>
      if fault then (rows, Finished(StoreFailed))
      else if RowOf(rows, t, id).None? then (rows, Finished(Missing))
      else (rows, UpdateReload(t, id, app))
    case UpdateReload(t, id, app) =>
      if fault then (rows, Finished(StoreFailed))
      else if RowOf(rows, t, id).None? then (rows, Finished(Missing))
      else (rows, UpdatePut(t, id, app, RowOf(rows, t, id).value))
    case UpdatePut(t, id, app, raw) =>
      if fault then (rows, Finished(StoreFailed))
      else (rows[appKey := AppItem(raw.(app := app))], Finished(Done))
    case DeleteGet(t, id) =>
      if fault then (rows, Finished(StoreFailed))
      else if RowOf(rows, t, id).None? then (rows, Finished(Missing))
      else (rows, DeleteApp(t, id, RowOf(rows, t, id).value))
    case DeleteApp(t, id, raw) =>
      if fault then (rows, Finished(StoreFailed))
      else (rows - {appKey}, DeleteSaml(t, id, raw.entityID))
    case DeleteSaml(t, id, e) =>
      (if fault then rows else rows - {Key(t, SamlSK(id))}, DeleteOidc(t, id, e))
    case DeleteOidc(t, id, e) =>
      (if fault then rows else rows - {Key(t, OidcSK(id))}, if e != "" then DeleteRelease(t, id, e) else Finished(Done))
    case DeleteRelease(t, id, e) =>
      (if fault then rows else rows - {Key(t, EntityUniqueSK(e))}, Finished(Done))
  }

  // ---------- Interleaved runs ----------

  /** The table, the calls in flight by ticket, and the ids generated so far. */
  datatype State = State(rows: Rows, ops: map<nat, Op>, used: set<string>)

  datatype Event = Begin(ticket: nat, op: Op) | Call(ticket: nat, fault: bool)

  predicate SameApp(a: Op, b: Op)
    requires !a.Finished? && !b.Finished?
  {
    a.tenant == b.tenant && a.id == b.id
  }

  predicate IsCreate(op: Op) {
    op.CreateReserve? || op.CreateApp? || op.CreateRollback? || op.CreateSaml?
  }

  /** A rename, update or delete that has not yet found its application. */
  predicate AtGet(op: Op) { op.RenameGet? || op.UpdateGet? || op.DeleteGet? }

  /** What a caller may start: a Create with a fresh id, or a rename, update or delete
      while no other one of the same application is in flight. */
  predicate MayBegin(s: State, op: Op) {
    || ((op.CreateReserve? || (op.CreateApp? && op.samlCfg.None?)) && op.app.id == op.id && op.id !in s.used)
    || (AtGet(op) && (op.UpdateGet? ==> op.app.id == op.id)
        && forall n :: n in s.ops && !s.ops[n].Finished? && SameApp(s.ops[n], op) ==> IsCreate(s.ops[n]))
  }

  predicate Enabled(s: State, e: Event) {
    match e
    case Begin(n, op) => n !in s.ops && MayBegin(s, op)
    case Call(n, _) => n in s.ops && !s.ops[n].Finished?
  }

  function Apply(s: State, e: Event): State
    requires Enabled(s, e)
  {
    match e
    case Begin(n, op) =>
      s.(ops := s.ops[n := op], used := if IsCreate(op) then s.used + {op.id} else s.used)
    case Call(n, fault) =>
      var (rows, op) := Step(s.rows, s.ops[n], fault);
      s.(rows := rows, ops := if op.Finished? then s.ops - {n} else s.ops[n := op])
  }

  predicate Legal(s: State, events: seq<Event>)
    decreases |events|
  {
    events == [] || (Enabled(s, events[0]) && Legal(Apply(s, events[0]), events[1..]))
  }

  function Exec(s: State, events: seq<Event>): State
    requires Legal(s, events)
    decreases |events|
  {
    if events == [] then s else Exec(Apply(s, events[0]), events[1..])
  }

  const INITIAL: State := State(map[], map[], {})

  /** No two applications of one tenant carry the same non-empty entityID. */
  ghost predicate UniqueEntityIDs(rows: Rows) {
    forall t, a, b :: RowOf(rows, t, a).Some? && RowOf(rows, t, b).Some?
                      && RowOf(rows, t, a).value.entityID == RowOf(rows, t, b).value.entityID != ""
                      ==> a == b
  }

  // ---------- The invariant ----------

  /** Every application owns the reservation of its entityID. */
  ghost predicate Owned(rows: Rows) {
    forall t, id :: RowOf(rows, t, id).Some? && RowOf(rows, t, id).value.entityID != ""
                    ==> MarkerOf(rows, t, RowOf(rows, t, id).value.entityID) == Some(id)
  }

  /** What a call in flight relies on between two of its table calls. */
  ghost predicate OpOk(rows: Rows, op: Op)
    requires !op.Finished?
  {
    var row := RowOf(rows, op.tenant, op.id);
    match op
    case CreateReserve(_, _, _, _) => row.None?
    case CreateApp(t, id, _, cfg) => row.None? && (cfg.Some? ==> MarkerOf(rows, t, cfg.value.entityID) == Some(id))
    case CreateRollback(t, id, e) => row.None? && MarkerOf(rows, t, e) == Some(id)
    case RenameReserve(_, _, cfg, raw) => row == Some(raw) && cfg.entityID != raw.entityID
    case RenameSaml(t, id, cfg, raw) => row == Some(raw)
      && (cfg.entityID != raw.entityID ==> MarkerOf(rows, t, cfg.entityID) == Some(id))
    case RenameApp(t, id, cfg, raw) => row == Some(raw)
      && (cfg.entityID != raw.entityID ==> MarkerOf(rows, t, cfg.entityID) == Some(id))
    case RenameRollback(t, id, e) => row.Some? && row.value.entityID != e && MarkerOf(rows, t, e) == Some(id)
    case RenameRelease(t, id, e) => row.Some? && row.value.entityID != e && MarkerOf(rows, t, e) == Some(id)
    case UpdatePut(_, _, _, raw) => row == Some(raw)
    case DeleteApp(_, _, raw) => row == Some(raw)
    case DeleteSaml(t, id, e) => row.None? && (e != "" ==> MarkerOf(rows, t, e) == Some(id))
    case DeleteOidc(t, id, e) => row.None? && (e != "" ==> MarkerOf(rows, t, e) == Some(id))
    case DeleteRelease(t, id, e) => row.None? && MarkerOf(rows, t, e) == Some(id)
    case _ => true
  }

  /** Two calls on one application: one of them is a Create, which either has written
      its application row or the other has not yet found it. */
  predicate PairOk(a: Op, b: Op) {
    !a.Finished? && !b.Finished? && SameApp(a, b) ==>
      a.CreateSaml? || b.CreateSaml? || (IsCreate(a) && AtGet(b)) || (AtGet(a) && IsCreate(b))
  }

  ghost predicate Inv(s: State) {
    && Owned(s.rows)
    && (forall n :: n in s.ops ==> !s.ops[n].Finished? && OpOk(s.rows, s.ops[n]))
    && (forall n, m :: n in s.ops && m in s.ops && n != m ==> PairOk(s.ops[n], s.ops[m]))
    && (forall t, id :: RowOf(s.rows, t, id).Some? ==> id in s.used)
    && (forall n :: n in s.ops && !AtGet(s.ops[n]) ==> s.ops[n].id in s.used)
  }

  /** A call of application (t, id) changes no other application's row, and touches
      only reservations that are free or its own. */
  ghost predicate TouchesOnly(before: Rows, after: Rows, t: string, id: string) {
    && (forall t2, id2 :: (t2 != t || id2 != id) ==> RowOf(after, t2, id2) == RowOf(before, t2, id2))
    && (forall t2, e :: MarkerOf(after, t2, e) != MarkerOf(before, t2, e) ==>
                          t2 == t && (MarkerOf(before, t2, e) == Some(id)
                                      || (MarkerOf(before, t2, e) == None && MarkerOf(after, t2, e) == Some(id))))
  }

  lemma {:induction false} StepTouchesOnly(rows: Rows, op: Op, fault: bool)
    requires !op.Finished? && OpOk(rows, op)
    ensures TouchesOnly(rows, Step(rows, op, fault).0, op.tenant, op.id)
  {
  }

  lemma {:induction false} StepKeepsOwned(rows: Rows, op: Op, fault: bool)
    requires !op.Finished? && OpOk(rows, op) && Owned(rows)
    ensures Owned(Step(rows, op, fault).0)
  {
    var after := Step(rows, op, fault).0;
    StepTouchesOnly(rows, op, fault);
    forall t, id | RowOf(after, t, id).Some? && RowOf(after, t, id).value.entityID != ""
      ensures MarkerOf(after, t, RowOf(after, t, id).value.entityID) == Some(id)
    {
      if t == op.tenant && id == op.id {
        OwnRowStaysOwned(rows, op, fault);
      } else {
        assert MarkerOf(rows, t, RowOf(rows, t, id).value.entityID) == Some(id);
      }
    }
  }

  lemma {:induction false} OwnRowStaysOwned(rows: Rows, op: Op, fault: bool)
    requires !op.Finished? && OpOk(rows, op) && Owned(rows)
    ensures var row := RowOf(Step(rows, op, fault).0, op.tenant, op.id);
            row.Some? && row.value.entityID != ""
            ==> MarkerOf(Step(rows, op, fault).0, op.tenant, row.value.entityID) == Some(op.id)
  {
    var row := RowOf(rows, op.tenant, op.id);
    assert row.Some? && row.value.entityID != "" ==> MarkerOf(rows, op.tenant, row.value.entityID) == Some(op.id);
  }

  lemma {:induction false} StepKeepsOwnOp(rows: Rows, op: Op, fault: bool)
    requires !op.Finished? && OpOk(rows, op) && Owned(rows)
    ensures var (rows', op') := Step(rows, op, fault);
            !op'.Finished? ==> OpOk(rows', op') && SameApp(op, op')
  {
  }

  lemma {:induction false} OtherAppUndisturbed(before: Rows, after: Rows, t: string, id: string, other: Op)
    requires TouchesOnly(before, after, t, id)
    requires !other.Finished? && (other.tenant != t || other.id != id) && OpOk(before, other)
    ensures OpOk(after, other)
  {
    assert RowOf(after, other.tenant, other.id) == RowOf(before, other.tenant, other.id);
    assert forall e ::
             MarkerOf(before, other.tenant, e) == Some(other.id) ==> MarkerOf(after, other.tenant, e) == Some(other.id);
  }

  lemma {:induction false} SameAppUndisturbed(rows: Rows, op: Op, fault: bool, other: Op)
    requires !op.Finished? && !other.Finished? && SameApp(op, other)
    requires OpOk(rows, op) && OpOk(rows, other) && PairOk(op, other)
    ensures OpOk(Step(rows, op, fault).0, other)
  {
    var after := Step(rows, op, fault).0;
    if op.CreateSaml? || AtGet(op) {
      assert forall t, id :: RowOf(after, t, id) == RowOf(rows, t, id);
      assert forall t, e :: MarkerOf(after, t, e) == MarkerOf(rows, t, e);
    }
  }

  lemma {:induction false} OthersUndisturbed(rows: Rows, op: Op, fault: bool, other: Op)
    requires !op.Finished? && !other.Finished?
    requires OpOk(rows, op) && OpOk(rows, other) && PairOk(op, other)
    ensures OpOk(Step(rows, op, fault).0, other)
  {
    StepTouchesOnly(rows, op, fault);
    if SameApp(op, other) {
      SameAppUndisturbed(rows, op, fault, other);
    } else {
      OtherAppUndisturbed(rows, Step(rows, op, fault).0, op.tenant, op.id, other);
    }
  }

  /** What one step does to the kind of call: a Create stays a Create, and only a call
      that found its application gets past the first read. */
  lemma {:induction false} StepShape(rows: Rows, op: Op, fault: bool)
    requires !op.Finished? && !Step(rows, op, fault).1.Finished?
    ensures var op' := Step(rows, op, fault).1;
            && SameApp(op, op') && IsCreate(op') == IsCreate(op) && !AtGet(op') && !op.CreateSaml?
            && (AtGet(op) ==> RowOf(rows, op.tenant, op.id).Some?)
  {
  }

  lemma {:induction false} PairsStayOk(rows: Rows, op: Op, fault: bool, other: Op)
    requires !op.Finished? && !other.Finished?
    requires OpOk(rows, op) && OpOk(rows, other) && PairOk(op, other)
    requires !Step(rows, op, fault).1.Finished?
    ensures PairOk(Step(rows, op, fault).1, other) && PairOk(other, Step(rows, op, fault).1)
  {
    StepShape(rows, op, fault);
    if SameApp(op, other) && IsCreate(other) && AtGet(op) {
      assert RowOf(rows, other.tenant, other.id).Some? ==> other.CreateSaml?;
    }
  }

  lemma {:induction false} CallKeepsIdsUsed(s: State, n: nat, fault: bool)
    requires Inv(s) && Enabled(s, Call(n, fault))
    ensures var s' := Apply(s, Call(n, fault));
            && (forall t, id :: RowOf(s'.rows, t, id).Some? ==> id in s'.used)
            && (forall m :: m in s'.ops && !AtGet(s'.ops[m]) ==> s'.ops[m].id in s'.used)
  {
    var op := s.ops[n];
    StepTouchesOnly(s.rows, op, fault);
    if !Step(s.rows, op, fault).1.Finished? {
      StepShape(s.rows, op, fault);
    }
  }

  lemma {:induction false} CallKeepsInv(s: State, n: nat, fault: bool)
    requires Inv(s) && Enabled(s, Call(n, fault))
    ensures Inv(Apply(s, Call(n, fault)))
  {
    var s' := Apply(s, Call(n, fault));
    var op := s.ops[n];
    StepKeepsOwned(s.rows, op, fault);
    StepKeepsOwnOp(s.rows, op, fault);
    CallKeepsIdsUsed(s, n, fault);
    forall m | m in s'.ops && m != n
      ensures OpOk(s'.rows, s'.ops[m]) && (n in s'.ops ==> PairOk(s'.ops[n], s'.ops[m]) && PairOk(s'.ops[m], s'.ops[n]))
    {
      OthersUndisturbed(s.rows, op, fault, s.ops[m]);
      if n in s'.ops {
        PairsStayOk(s.rows, op, fault, s.ops[m]);
      }
    }
  }

  lemma {:induction false} BeginKeepsInv(s: State, n: nat, op: Op)
    requires Inv(s) && Enabled(s, Begin(n, op))
    ensures Inv(Apply(s, Begin(n, op)))
  {
  }

  lemma {:induction false} EventKeepsInv(s: State, e: Event)
    requires Inv(s) && Enabled(s, e)
    ensures Inv(Apply(s, e))
  {
    match e
    case Begin(n, op) => BeginKeepsInv(s, n, op);
    case Call(n, fault) => CallKeepsInv(s, n, fault);
  }

  lemma {:induction false} ExecKeepsInv(s: State, events: seq<Event>)
    requires Inv(s) && Legal(s, events)
    ensures Inv(Exec(s, events))
    decreases |events|
  {
    if events == [] {
    } else {
      EventKeepsInv(s, events[0]);
      ExecKeepsInv(Apply(s, events[0]), events[1..]);
    }
  }

  /** Main theorem: however calls interleave and fail, no reachable table holds two
      applications of one tenant with the same entityID. */
  lemma {:induction false} NoDuplicateEntityIDs(events: seq<Event>)
    requires Legal(INITIAL, events)
    ensures UniqueEntityIDs(Exec(INITIAL, events).rows)
    ensures Owned(Exec(INITIAL, events).rows)
  {
    ExecKeepsInv(INITIAL, events);
    var rows := Exec(INITIAL, events).rows;
    forall t, a, b | RowOf(rows, t, a).Some? && RowOf(rows, t, b).Some?
                     && RowOf(rows, t, a).value.entityID == RowOf(rows, t, b).value.entityID != ""
      ensures a == b
    {
      assert MarkerOf(rows, t, RowOf(rows, t, a).value.entityID) == Some(a);
    }
  }

  // ---------- Index attributes ----------

  /** Application items sit under application keys, and every one names its own id and tenant
      and is indexed under its entityID, or under its client id if it has none. */
  ghost predicate Indexed(rows: Rows) {
    && (forall k :: k in rows ==> (k.sk.AppSK? <==> rows[k].AppItem?))
    && (forall k :: k in rows && rows[k].AppItem? ==> RowIndexed(rows[k].row, k.tenant, k.sk.id))
  }

  predicate RowIndexed(row: AppRow, t: string, id: string) {
    && row.app.id == id && row.gsi1SK == TenantPK(t)
    && (row.gsi1PK == EntityGSIPK(t, row.entityID) || (row.entityID == "" && row.gsi1PK == ClientGSIPK(id)))
  }

  /** The application a call is about to write bears the call's id. */
  predicate OpIndexed(op: Op) {
    match op
    case CreateReserve(_, id, app, _) => app.id == id
    case CreateApp(_, id, app, _) => app.id == id
    case UpdateGet(_, id, app) => app.id == id
    case UpdateReload(_, id, app) => app.id == id
    case UpdatePut(_, id, app, _) => app.id == id
    case _ => true
  }

  lemma {:induction false} PutKeepsIndexed(rows: Rows, k: Key, item: Item)
    requires Indexed(rows) && (k.sk.AppSK? <==> item.AppItem?)
    requires item.AppItem? ==> RowIndexed(item.row, k.tenant, k.sk.id)
    ensures Indexed(rows[k := item])
  {
  }

  lemma {:induction false} DropKeepsIndexed(rows: Rows, k: Key)
    requires Indexed(rows)
    ensures Indexed(rows - {k})
  {
  }

  lemma {:induction false} IndexedRow(rows: Rows, t: string, id: string)
    requires Indexed(rows) && RowOf(rows, t, id).Some?
    ensures RowIndexed(RowOf(rows, t, id).value, t, id)
  {
  }

  lemma {:induction false} StepKeepsIndexed(rows: Rows, op: Op, fault: bool)
    requires !op.Finished? && OpOk(rows, op) && OpIndexed(op) && Indexed(rows)
    ensures Indexed(Step(rows, op, fault).0)
  {
    hide EntityGSIPK, ClientGSIPK, TenantPK, Indexed, OpIndexed, AfterRename;
    WrittenRowIndexed(rows, op);
    match op
    case CreateReserve(t, id, _, cfg) =>
      PutKeepsIndexed(rows, Key(t, EntityUniqueSK(cfg.entityID)), MarkerItem(cfg.entityID, id));
    case RenameReserve(t, id, cfg, _) =>
      PutKeepsIndexed(rows, Key(t, EntityUniqueSK(cfg.entityID)), MarkerItem(cfg.entityID, id));
    case CreateApp(t, id, _, _) => PutKeepsIndexed(rows, Key(t, AppSK(id)), AppItem(NewRow(op)));
    case RenameApp(t, id, _, _) => PutKeepsIndexed(rows, Key(t, AppSK(id)), AppItem(RenamedRow(op)));
    case UpdatePut(t, id, app, raw) => PutKeepsIndexed(rows, Key(t, AppSK(id)), AppItem(raw.(app := app)));
    case CreateSaml(t, id, cfg) => PutKeepsIndexed(rows, Key(t, SamlSK(id)), SamlItem(cfg));
    case RenameSaml(t, id, cfg, _) => PutKeepsIndexed(rows, Key(t, SamlSK(id)), SamlItem(cfg));
    case CreateRollback(t, _, e) => DropKeepsIndexed(rows, Key(t, EntityUniqueSK(e)));
    case RenameRollback(t, _, e) => DropKeepsIndexed(rows, Key(t, EntityUniqueSK(e)));
    case RenameRelease(t, _, e) => DropKeepsIndexed(rows, Key(t, EntityUniqueSK(e)));
    case DeleteApp(t, id, _) => DropKeepsIndexed(rows, Key(t, AppSK(id)));
    case DeleteSaml(t, id, _) => DropKeepsIndexed(rows, Key(t, SamlSK(id)));
    case DeleteOidc(t, id, _) => DropKeepsIndexed(rows, Key(t, OidcSK(id)));
    case DeleteRelease(t, _, e) => DropKeepsIndexed(rows, Key(t, EntityUniqueSK(e)));
    case _ =>
  }

  /** An application row is written with its own id, tenant and entityID in its index keys. */
  lemma {:induction false} WrittenRowIndexed(rows: Rows, op: Op)
    requires !op.Finished? && OpOk(rows, op) && OpIndexed(op) && Indexed(rows)
    ensures op.CreateApp? ==> RowIndexed(NewRow(op), op.tenant, op.id)
    ensures op.RenameApp? ==> RowIndexed(RenamedRow(op), op.tenant, op.id)
    ensures op.UpdatePut? ==> RowIndexed(op.raw.(app := op.app), op.tenant, op.id)
  {
    hide EntityGSIPK, ClientGSIPK, TenantPK, Indexed;
    if RowOf(rows, op.tenant, op.id).Some? { IndexedRow(rows, op.tenant, op.id); }
  }

  lemma {:induction false} StepKeepsOpIndexed(rows: Rows, op: Op, fault: bool)
    requires !op.Finished? && OpIndexed(op)
    ensures OpIndexed(Step(rows, op, fault).1)
  {
    hide RowOf, NewRow, RenamedRow;
  }

  ghost predicate AllIndexed(s: State) {
    Indexed(s.rows) && forall n :: n in s.ops ==> OpIndexed(s.ops[n])
  }

  lemma {:induction false} EventKeepsIndexed(s: State, e: Event)
    requires Inv(s) && Enabled(s, e) && AllIndexed(s)
    ensures AllIndexed(Apply(s, e))
  {
    hide Step, OpOk, OpIndexed, Indexed;
    match e
    case Begin(n, op) => BegunIndexed(s, op);
    case Call(n, fault) => StepKeepsIndexed(s.rows, s.ops[n], fault); StepKeepsOpIndexed(s.rows, s.ops[n], fault);
  }

  lemma {:induction false} BegunIndexed(s: State, op: Op)
    requires MayBegin(s, op)
    ensures OpIndexed(op)
  {
  }

  lemma {:induction false} ExecKeepsIndexed(s: State, events: seq<Event>)
    requires Inv(s) && AllIndexed(s) && Legal(s, events)
    ensures AllIndexed(Exec(s, events))
    decreases |events|
  {
    hide Inv, AllIndexed;
    if events == [] {
    } else {
      EventKeepsInv(s, events[0]);
      EventKeepsIndexed(s, events[0]);
      ExecKeepsIndexed(Apply(s, events[0]), events[1..]);
    }
  }

  /** However calls interleave and fail, every application row stays indexed under the
      entityID it carries and names its own tenant. */
  lemma {:induction false} ReachableTablesIndexed(events: seq<Event>)
    requires Legal(INITIAL, events)
    ensures Indexed(Exec(INITIAL, events).rows)
  {
    ExecKeepsIndexed(INITIAL, events);
  }

  // ---------- One call on its own ----------

  function StepsLeft(op: Op): nat {
    match op
    case CreateReserve(_, _, _, _) => 3
    case CreateApp(_, _, _, _) => 2
    case RenameGet(_, _, _) => 6
    case RenameReload(_, _, _) => 5
    case RenameReserve(_, _, _, _) => 4
    case RenameSaml(_, _, _, _) => 3
    case RenameApp(_, _, _, _) => 2
    case UpdateGet(_, _, _) => 3
    case UpdateReload(_, _, _) => 2
    case DeleteGet(_, _) => 5
    case DeleteApp(_, _, _) => 4
    case DeleteSaml(_, _, _) => 3
    case DeleteOidc(_, _, _) => 2
    case Finished(_) => 0
    case _ => 1
  }

  /** `op` run to its end with nothing in between, table call i failing when
      faults[i] says so: the table, the outcome, and the unused schedule. */
  function Run(rows: Rows, op: Op, faults: seq<bool>): (Rows, Outcome, seq<bool>)
    decreases StepsLeft(op)
  {
    if op.Finished? then (rows, op.outcome, faults)
    else
      var (rows', op') := Step(rows, op, NextFault(faults));
      Run(rows', op', LaterFaults(faults))
  }

  /** The hypothesis of the runs is needed: an Update that read its row before a rename
      and writes it after puts the old entityID back, which another application may
      have registered meanwhile. */
  lemma {:induction false} RacingUpdateDuplicates(t: string, app: Application, first: SAMLConfig, second: SAMLConfig)
    requires first.entityID != "" && second.entityID != "" && first.entityID != second.entityID
    ensures var rows0 := Run(map[], StartCreate(t, "1", app, Some(first)), []).0;
            var row := RowOf(rows0, t, "1");
            var rows1 := Run(rows0, RenameGet(t, "1", second), []).0;
            var rows2 := Run(rows1, StartCreate(t, "2", app, Some(first)), []).0;
            && row.Some?
            && Step(rows0, UpdateReload(t, "1", app), false) == (rows0, UpdatePut(t, "1", app, row.value))
            && !UniqueEntityIDs(Step(rows2, UpdatePut(t, "1", app, row.value), false).0)
  {
    hide Run, Step, UniqueEntityIDs;
    CreateAlone(map[], t, "1", app, first);
    var rows0 := Run(map[], StartCreate(t, "1", app, Some(first)), []).0;
    var row := RowOf(rows0, t, "1").value;
    UpdateReads(rows0, t, app, row);
    RenameAlone(rows0, t, "1", second);
    var rows1 := Run(rows0, RenameGet(t, "1", second), []).0;
    CreateAlone(rows1, t, "2", app, first);
    var rows2 := Run(rows1, StartCreate(t, "2", app, Some(first)), []).0;
    SecondRowSurvives(rows2, t, app, row, first.entityID);
  }

  lemma {:induction false} UpdateReads(rows: Rows, t: string, app: Application, row: AppRow)
    requires RowOf(rows, t, "1") == Some(row)
    ensures Step(rows, UpdateReload(t, "1", app), false) == (rows, UpdatePut(t, "1", app, row))
  {
  }

  lemma {:induction false} SecondRowSurvives(rows: Rows, t: string, app: Application, row: AppRow, e: string)
    requires RowOf(rows, t, "2").Some? && RowOf(rows, t, "2").value.entityID == row.entityID == e != ""
    ensures !UniqueEntityIDs(Step(rows, UpdatePut(t, "1", app, row), false).0)
  {
    var after := Step(rows, UpdatePut(t, "1", app, row), false).0;
    assert RowOf(after, t, "1").value.entityID == RowOf(after, t, "2").value.entityID == e;
    assert "1"[0] != "2"[0];
  }

  /** A fault-free Create of a SAML application whose entityID is free. */
  lemma {:induction false} CreateAlone(rows: Rows, t: string, id: string, app: Application, cfg: SAMLConfig)
    requires Key(t, EntityUniqueSK(cfg.entityID)) !in rows
    ensures var r := Run(rows, StartCreate(t, id, app, Some(cfg)), []);
            var row := NewRow(CreateApp(t, id, app.(id := id), Some(cfg)));
            && r.1 == Created(id)
            && r.0 == rows[Key(t, EntityUniqueSK(cfg.entityID)) := MarkerItem(cfg.entityID, id)]
                          [Key(t, AppSK(id)) := AppItem(row)][Key(t, SamlSK(id)) := SamlItem(cfg)]
  {
    var op := StartCreate(t, id, app, Some(cfg));
    var (rows1, op1) := Step(rows, op, false);
    var (rows2, op2) := Step(rows1, op1, false);
    var (rows3, op3) := Step(rows2, op2, false);
    assert Run(rows3, op3, []) == (rows3, Created(id), []);
    assert Run(rows2, op2, []) == Run(rows3, op3, []);
    assert Run(rows1, op1, []) == Run(rows2, op2, []);
  }

  /** A fault-free rename to a free, different entityID. */
  lemma {:induction false} RenameAlone(rows: Rows, t: string, id: string, cfg: SAMLConfig)
    requires RowOf(rows, t, id).Some? && RowOf(rows, t, id).value.entityID != cfg.entityID
    requires RowOf(rows, t, id).value.entityID != ""
    requires Key(t, EntityUniqueSK(cfg.entityID)) !in rows
    ensures var r := Run(rows, RenameGet(t, id, cfg), []);
            var raw := RowOf(rows, t, id).value;
            && r.1 == Done
            && r.0 == rows[Key(t, EntityUniqueSK(cfg.entityID)) := MarkerItem(cfg.entityID, id)]
                          [Key(t, SamlSK(id)) := SamlItem(cfg)]
                          [Key(t, AppSK(id)) := AppItem(RenamedRow(RenameApp(t, id, cfg, raw)))]
                      - {Key(t, EntityUniqueSK(raw.entityID))}
  {
    var raw := RowOf(rows, t, id).value;
    var (rows1, op1) := Step(rows, RenameReserve(t, id, cfg, raw), false);
    var (rows2, op2) := Step(rows1, op1, false);
    var (rows3, op3) := Step(rows2, op2, false);
    var (rows4, op4) := Step(rows3, op3, false);
    assert Run(rows3, op3, []) == Run(rows4, op4, []) == (rows4, Done, []);
    assert Run(rows2, op2, []) == Run(rows3, op3, []);
    assert Run(rows1, op1, []) == Run(rows2, op2, []);
    assert Run(rows, RenameReserve(t, id, cfg, raw), []) == Run(rows1, op1, []);
    assert Run(rows, RenameReload(t, id, cfg), []) == Run(rows, RenameReserve(t, id, cfg, raw), []);
  }

  // ---------- Reservations nobody can release ----------

  /** A rename to a free, different entityID under any schedule, from its reservation on. */
  lemma {:induction false} RenameReserved(rows: Rows, t: string, id: string, cfg: SAMLConfig, raw: AppRow,
                                          faults: seq<bool>)
    requires RowOf(rows, t, id) == Some(raw) && raw.entityID != cfg.entityID
             && Key(t, EntityUniqueSK(cfg.entityID)) !in rows
    ensures var r := Run(rows, RenameReserve(t, id, cfg, raw), faults);
            && r.1 in {StoreFailed, Done}
            && (r.1 == StoreFailed <==> FaultAt(faults, 0) || FaultAt(faults, 1) || FaultAt(faults, 2))
            && (r.1 == StoreFailed ==>
                  && RowOf(r.0, t, id) == Some(raw)
                  && (Key(t, EntityUniqueSK(cfg.entityID)) in r.0 <==> !FaultAt(faults, 0) && FaultAt(faults, 2)))
  {
    var op0 := RenameReserve(t, id, cfg, raw);
    var f1 := LaterFaults(faults);
    var f2 := LaterFaults(f1);
    LaterFaultAt(faults, 0);
    LaterFaultAt(faults, 1);
    LaterFaultAt(f1, 0);
    var (rows1, op1) := Step(rows, op0, NextFault(faults));
    assert Run(rows, op0, faults) == Run(rows1, op1, f1);
    if !NextFault(faults) {
      var (rows2, op2) := Step(rows1, op1, NextFault(f1));
      assert Run(rows1, op1, f1) == Run(rows2, op2, f2);
      var (rows3, op3) := Step(rows2, op2, NextFault(f2));
      assert Run(rows2, op2, f2) == Run(rows3, op3, LaterFaults(f2));
      if op3.RenameRelease? {
        assert Run(rows3, op3, LaterFaults(f2)).1 == Done;
      }
    }
  }

  lemma {:induction false} RenameReads(rows: Rows, t: string, id: string, cfg: SAMLConfig, faults: seq<bool>)
    requires RowOf(rows, t, id).Some? && RowOf(rows, t, id).value.entityID != cfg.entityID
    ensures Run(rows, RenameGet(t, id, cfg), faults)
            == if FaultAt(faults, 0) then (rows, StoreFailed, LaterFaults(faults))
               else if FaultAt(faults, 1) then (rows, StoreFailed, LaterFaults(LaterFaults(faults)))
               else Run(rows, RenameReserve(t, id, cfg, RowOf(rows, t, id).value), LaterFaults(LaterFaults(faults)))
  {
    LaterFaultAt(faults, 0);
    LaterFaultAt(LaterFaults(faults), 0);
    var (rows1, op1) := Step(rows, RenameGet(t, id, cfg), NextFault(faults));
    assert Run(rows, RenameGet(t, id, cfg), faults) == Run(rows1, op1, LaterFaults(faults));
    if !NextFault(faults) {
      var (rows2, op2) := Step(rows1, op1, NextFault(LaterFaults(faults)));
      assert Run(rows1, op1, LaterFaults(faults)) == Run(rows2, op2, LaterFaults(LaterFaults(faults)));
    }
  }

  /** Exactly which failed renames to a free, different entityID block their own retry: those
      whose reservation was made and whose fifth call failed, be that the write of the
      application row or, after a failed SAML write, the rollback. */
  lemma {:induction false} FailedRenameSticksIff(rows: Rows, t: string, id: string, cfg: SAMLConfig, faults: seq<bool>)
    requires RowOf(rows, t, id).Some? && RowOf(rows, t, id).value.entityID != cfg.entityID
    requires Key(t, EntityUniqueSK(cfg.entityID)) !in rows
    requires Run(rows, RenameGet(t, id, cfg), faults).1 == StoreFailed
    ensures var after := Run(rows, RenameGet(t, id, cfg), faults).0;
            Run(after, RenameGet(t, id, cfg), []).1 == DuplicateEntityID
            <==> !FaultAt(faults, 0) && !FaultAt(faults, 1) && !FaultAt(faults, 2) && FaultAt(faults, 4)
  {
    hide Run;
    var raw := RowOf(rows, t, id).value;
    var f2 := LaterFaults(LaterFaults(faults));
    LaterFaultAt(faults, 1); LaterFaultAt(LaterFaults(faults), 0);
    LaterFaultAt(faults, 2); LaterFaultAt(LaterFaults(faults), 1);
    LaterFaultAt(faults, 3); LaterFaultAt(LaterFaults(faults), 2);
    RenameReads(rows, t, id, cfg, faults);
    RenameReserved(rows, t, id, cfg, raw, f2);
    RetryOutcome(Run(rows, RenameGet(t, id, cfg), faults).0, t, id, cfg);
  }

  lemma {:induction false} RetryOutcome(rows: Rows, t: string, id: string, cfg: SAMLConfig)
    requires RowOf(rows, t, id).Some? && RowOf(rows, t, id).value.entityID != cfg.entityID
    ensures Run(rows, RenameGet(t, id, cfg), []).1 == DuplicateEntityID
            <==> Key(t, EntityUniqueSK(cfg.entityID)) in rows
  {
    var raw := RowOf(rows, t, id).value;
    RenameReads(rows, t, id, cfg, []);
    if Key(t, EntityUniqueSK(cfg.entityID)) in rows {
      var (rows1, op1) := Step(rows, RenameReserve(t, id, cfg, raw), false);
      assert op1 == Finished(DuplicateEntityID);
    } else {
      RenameReserved(rows, t, id, cfg, raw, []);
    }
  }

  /** A call that will use, or give back, the reservation of `e`. */
  predicate Holds(op: Op, t: string, e: string) {
    !op.Finished? && op.tenant == t &&
    match op
    case CreateApp(_, _, _, cfg) => cfg.Some? && cfg.value.entityID == e
    case CreateRollback(_, _, f) => f == e
    case RenameSaml(_, _, cfg, raw) => cfg.entityID == e && raw.entityID != e
    case RenameRollback(_, _, f) => f == e
    case RenameApp(_, _, cfg, raw) => cfg.entityID == e && raw.entityID != e
    case RenameRelease(_, _, f) => f == e
    case DeleteSaml(_, _, f) => f == e
    case DeleteOidc(_, _, f) => f == e
    case DeleteRelease(_, _, f) => f == e
    case _ => false
  }

  /** A reservation whose owner does not carry the entityID, and no call of the owner is
      left that would use it or give it back. */
  ghost predicate Stuck(s: State, t: string, e: string, id: string) {
    && e != "" && id in s.used && MarkerOf(s.rows, t, e) == Some(id)
    && !(RowOf(s.rows, t, id).Some? && RowOf(s.rows, t, id).value.entityID == e)
    && forall n :: n in s.ops && !s.ops[n].Finished? && s.ops[n].id == id ==> !Holds(s.ops[n], t, e)
  }

  lemma {:induction false} OwnCallKeepsStuck(rows: Rows, op: Op, fault: bool, t: string, e: string)
    requires !op.Finished? && OpOk(rows, op) && op.tenant == t && !Holds(op, t, e) && e != ""
    requires MarkerOf(rows, t, e) == Some(op.id)
    requires !(RowOf(rows, t, op.id).Some? && RowOf(rows, t, op.id).value.entityID == e)
    ensures var (rows', op') := Step(rows, op, fault);
            && MarkerOf(rows', t, e) == Some(op.id)
            && !(RowOf(rows', t, op.id).Some? && RowOf(rows', t, op.id).value.entityID == e)
            && !Holds(op', t, e)
  {
  }

  lemma {:induction false} CallKeepsStuck(s: State, n: nat, fault: bool, t: string, e: string, id: string)
    requires Inv(s) && Enabled(s, Call(n, fault)) && Stuck(s, t, e, id)
    ensures Stuck(Apply(s, Call(n, fault)), t, e, id)
  {
    hide Step, OpOk, PairOk, Owned, MarkerOf, RowOf, Holds;
    var op := s.ops[n];
    var s' := Apply(s, Call(n, fault));
    StepKeepsTicket(s, n, fault);
    if op.tenant == t && op.id == id {
      OwnCallKeepsStuck(s.rows, op, fault, t, e);
    } else {
      ForeignCallKeepsStuck(s.rows, op, fault, t, e, id);
    }
  }

  lemma {:induction false} ForeignCallKeepsStuck(rows: Rows, op: Op, fault: bool, t: string, e: string, id: string)
    requires !op.Finished? && OpOk(rows, op) && (op.tenant != t || op.id != id)
    requires MarkerOf(rows, t, e) == Some(id)
    ensures var (rows', op') := Step(rows, op, fault);
            && MarkerOf(rows', t, e) == Some(id) && RowOf(rows', t, id) == RowOf(rows, t, id)
            && (!op'.Finished? && op'.id == id ==> !Holds(op', t, e))
  {
    StepTouchesOnly(rows, op, fault);
    if !Step(rows, op, fault).1.Finished? { StepShape(rows, op, fault); }
  }

  lemma {:induction false} StepKeepsStuck(s: State, event: Event, t: string, e: string, id: string)
    requires Inv(s) && Enabled(s, event) && Stuck(s, t, e, id)
    ensures Stuck(Apply(s, event), t, e, id)
  {
    match event
    case Begin(n, op) =>
    case Call(n, fault) => CallKeepsStuck(s, n, fault, t, e, id);
  }

  /** A stuck reservation survives every later run, the deletion of its application included. */
  lemma {:induction false} StuckForEver(s: State, events: seq<Event>, t: string, e: string, id: string)
    requires Inv(s) && Legal(s, events) && Stuck(s, t, e, id)
    ensures Inv(Exec(s, events)) && Stuck(Exec(s, events), t, e, id)
    decreases |events|
  {
    hide Inv, Stuck;
    if events == [] {
    } else {
      StepKeepsStuck(s, events[0], t, e, id);
      EventKeepsInv(s, events[0]);
      StuckForEver(Apply(s, events[0]), events[1..], t, e, id);
    }
  }

  /** While a reservation is stuck, no Create and no rename of any application gets past
      reserving its entityID. */
  lemma {:induction false} StuckRefusesEveryone(s: State, op: Op, fault: bool, t: string, e: string, id: string)
    requires Stuck(s, t, e, id) && (op.CreateReserve? || op.RenameReserve?) && op.tenant == t && op.cfg.entityID == e
    ensures Step(s.rows, op, fault) in {(s.rows, Finished(DuplicateEntityID)), (s.rows, Finished(StoreFailed))}
  {
  }

  /** The reservation a call holds when it makes its next table call. */
  predicate LastChance(op: Op) {
    op.CreateRollback? || op.RenameRollback? || op.RenameApp? || op.RenameRelease? || op.DeleteRelease?
  }

  /** After any other outcome of the call, it still holds the reservation, the application
      carries the entityID, or the reservation is gone. */
  lemma {:induction false} OtherwiseInUse(rows: Rows, op: Op, fault: bool, e: string)
    requires !op.Finished? && OpOk(rows, op) && e != "" && Holds(op, op.tenant, e) && !(fault && LastChance(op))
    ensures var (rows', op') := Step(rows, op, fault);
            || Holds(op', op.tenant, e) || MarkerOf(rows', op.tenant, e).None?
            || (RowOf(rows', op.tenant, op.id).Some? && RowOf(rows', op.tenant, op.id).value.entityID == e)
  {
  }

  lemma {:induction false} LastChanceLost(rows: Rows, op: Op, e: string)
    requires !op.Finished? && OpOk(rows, op) && e != "" && Holds(op, op.tenant, e) && LastChance(op)
    ensures Step(rows, op, true).0 == rows && Step(rows, op, true).1.Finished?
            && MarkerOf(rows, op.tenant, e) == Some(op.id)
    ensures !(RowOf(rows, op.tenant, op.id).Some? && RowOf(rows, op.tenant, op.id).value.entityID == e)
  {
  }

  lemma {:induction false} HolderIsAlone(a: Op, b: Op, e: string)
    requires !a.Finished? && !b.Finished? && PairOk(a, b) && LastChance(a) && a.id == b.id
    ensures !Holds(b, a.tenant, e)
  {
  }

  /** Exactly which table calls leave a reservation stuck: a failed rollback, a failed
      release, or a failed application-row write of a rename. */
  lemma {:induction false} SticksIff(s: State, n: nat, fault: bool, e: string)
    requires Inv(s) && Enabled(s, Call(n, fault)) && e != "" && Holds(s.ops[n], s.ops[n].tenant, e)
    ensures Stuck(Apply(s, Call(n, fault)), s.ops[n].tenant, e, s.ops[n].id) <==> fault && LastChance(s.ops[n])
  {
    hide Step, OpOk, PairOk, Owned, MarkerOf, RowOf, Holds, LastChance;
    var op := s.ops[n];
    var s' := Apply(s, Call(n, fault));
    StepKeepsTicket(s, n, fault);
    if fault && LastChance(op) {
      LastChanceLost(s.rows, op, e);
      HoldersAreUsed(s, n, e);
      forall m | m in s'.ops && !s'.ops[m].Finished? && s'.ops[m].id == op.id ensures !Holds(s'.ops[m], op.tenant, e) {
        assert m != n && PairOk(op, s.ops[m]);
        HolderIsAlone(op, s.ops[m], e);
      }
    } else {
      OtherwiseInUse(s.rows, op, fault, e);
      var op' := Step(s.rows, op, fault).1;
      FinishedHoldsNothing(op', op.tenant, e);
      assert !op'.Finished? ==> n in s'.ops && s'.ops[n] == op';
    }
  }

  /** So an entityID whose reservation a call failed to give back is refused to every Create
      and every rename, after any continuation of the run. */
  lemma {:induction false} LostReservationBlocksForEver(s: State, n: nat, e: string, events: seq<Event>, op: Op,
                                                        fault: bool)
    requires Inv(s) && Enabled(s, Call(n, true)) && e != "" && Holds(s.ops[n], s.ops[n].tenant, e)
             && LastChance(s.ops[n])
    requires Legal(Apply(s, Call(n, true)), events)
    requires (op.CreateReserve? || op.RenameReserve?) && op.tenant == s.ops[n].tenant && op.cfg.entityID == e
    ensures var rows := Exec(Apply(s, Call(n, true)), events).rows;
            Step(rows, op, fault) in {(rows, Finished(DuplicateEntityID)), (rows, Finished(StoreFailed))}
  {
    hide Inv, Holds, LastChance, Stuck, Apply;
    SticksIff(s, n, true, e);
    EventKeepsInv(s, Call(n, true));
    StuckForEver(Apply(s, Call(n, true)), events, s.ops[n].tenant, e, s.ops[n].id);
    StuckRefusesEveryone(Exec(Apply(s, Call(n, true)), events), op, fault, s.ops[n].tenant, e, s.ops[n].id);
  }

  lemma {:induction false} FinishedHoldsNothing(op: Op, t: string, e: string)
    ensures Holds(op, t, e) ==> !op.Finished?
  {
  }

  lemma {:induction false} HoldersAreUsed(s: State, n: nat, e: string)
    requires Inv(s) && n in s.ops && !s.ops[n].Finished? && Holds(s.ops[n], s.ops[n].tenant, e)
    ensures s.ops[n].id in s.used
  {
  }

  lemma {:induction false} StepKeepsTicket(s: State, n: nat, fault: bool)
    requires Enabled(s, Call(n, fault)) && Inv(s)
    ensures var op' := Step(s.rows, s.ops[n], fault).1;
            !op'.Finished? ==> op'.id == s.ops[n].id && op'.tenant == s.ops[n].tenant
  {
    if !Step(s.rows, s.ops[n], fault).1.Finished? { StepShape(s.rows, s.ops[n], fault); }
  }
}
