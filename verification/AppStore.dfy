/** AppStore (internal/store/app_store.go): its methods issue the table calls in
    order, with the rollbacks, and are proved to be the calls of AppProtocol run on
    their own. Fault-free serial runs keep markers, application rows, SAML rows and
    index keys in agreement; lookups agree with a scan of the tenant. */
module AppStore {
  import opened Wrappers
  import opened Strings
  import opened Keys
  import opened Table
  import opened AppProtocol

  // ---------- Serial consistency ----------

  /** The three kinds of row hold the three kinds of item. */
  ghost predicate WellTyped(rows: Rows) {
    forall k :: k in rows ==> (k.sk.AppSK? <==> rows[k].AppItem?) && (k.sk.SamlSK? <==> rows[k].SamlItem?)
                              && (k.sk.EntityUniqueSK? <==> rows[k].MarkerItem?)
  }

  ghost predicate RowAgrees(rows: Rows, t: string, id: string)
    requires RowOf(rows, t, id).Some?
  {
    var row := RowOf(rows, t, id).value;
    && row.app.id == id != "" && row.gsi1SK == TenantPK(t)
    && match SamlOf(rows, t, id)
       case Some(cfg) => row.entityID == cfg.entityID && row.gsi1PK == EntityGSIPK(t, cfg.entityID)
       case None => row.entityID == "" && row.gsi1PK == ClientGSIPK(id)
  }

  /** Application and SAML row agree, and the non-empty reservations are exactly the
      (tenant, entityID) pairs of the application rows. */
  ghost predicate Consistent(rows: Rows) {
    && WellTyped(rows)
    && (forall t, id :: RowOf(rows, t, id).Some? ==> RowAgrees(rows, t, id))
    && (forall t, id :: SamlOf(rows, t, id).Some? ==> RowOf(rows, t, id).Some?)
    && (forall t, e, id :: e != "" ==> (MarkerOf(rows, t, e) == Some(id) <==> HasEntityID(rows, t, id, e)))
  }

  predicate HasEntityID(rows: Rows, t: string, id: string, e: string) {
    RowOf(rows, t, id).Some? && RowOf(rows, t, id).value.entityID == e
  }

  /** The first table call of a Create with a fresh id, or of a call on an id. */
  predicate Starts(rows: Rows, op: Op) {
    || ((op.CreateReserve? || (op.CreateApp? && op.samlCfg.None?)) && op.id != "" && op.app.id == op.id
        && RowOf(rows, op.tenant, op.id).None?)
    || op.RenameGet? || op.DeleteGet?
    || (op.UpdateGet? && op.app.id == op.id)
  }

  /** The table after writing an application's row and SAML row: with the entityID newly
      reserved if `reserve`, and the reservation of `release` removed if that is not "". */
  function Written(rows: Rows, t: string, id: string, cfg: SAMLConfig, row: AppRow, reserve: bool,
                   release: string): Rows
  {
    var reserved := if reserve then rows[Key(t, EntityUniqueSK(cfg.entityID)) := MarkerItem(cfg.entityID, id)]
      else rows;
    var put := reserved[Key(t, SamlSK(id)) := SamlItem(cfg)][Key(t, AppSK(id)) := AppItem(row)];
    if release != "" then put - {Key(t, EntityUniqueSK(release))} else put
  }

  /** What the protocol establishes before it writes: a new entityID is free and gets
      reserved, the old one is released. */
  ghost predicate WriteOk(rows: Rows, t: string, id: string, cfg: SAMLConfig, row: AppRow, reserve: bool,
                          release: string)
  {
    && id != "" && row.app.id == id && row.gsi1SK == TenantPK(t)
    && row.entityID == cfg.entityID && row.gsi1PK == EntityGSIPK(t, cfg.entityID)
    && (if reserve then Key(t, EntityUniqueSK(cfg.entityID)) !in rows && release != cfg.entityID
        else (cfg.entityID == "" || HasEntityID(rows, t, id, cfg.entityID)) && release == "")
    && (release != "" ==> HasEntityID(rows, t, id, release))
    && (RowOf(rows, t, id).Some? ==> RowOf(rows, t, id).value.entityID in {"", release, cfg.entityID})
  }

  lemma {:induction false} WrittenMarkers(rows: Rows, t: string, id: string, cfg: SAMLConfig, row: AppRow,
                                          reserve: bool, release: string, t2: string, e: string, id2: string)
    requires Consistent(rows) && WriteOk(rows, t, id, cfg, row, reserve, release) && e != ""
    ensures var after := Written(rows, t, id, cfg, row, reserve, release);
            MarkerOf(after, t2, e) == Some(id2) <==> HasEntityID(after, t2, id2, e)
  {
    assert MarkerOf(rows, t2, e) == Some(id2) <==> HasEntityID(rows, t2, id2, e);
    assert MarkerOf(rows, t2, e) == Some(id) <==> HasEntityID(rows, t2, id, e);
  }

  lemma {:induction false} WrittenRows(rows: Rows, t: string, id: string, cfg: SAMLConfig, row: AppRow, reserve: bool,
                                       release: string, t2: string, id2: string)
    requires Consistent(rows) && WriteOk(rows, t, id, cfg, row, reserve, release)
    ensures var after := Written(rows, t, id, cfg, row, reserve, release);
            && (SamlOf(after, t2, id2).Some? ==> RowOf(after, t2, id2).Some?)
            && (RowOf(after, t2, id2).Some? ==> RowAgrees(after, t2, id2))
  {
    assert RowOf(rows, t2, id2).Some? ==> RowAgrees(rows, t2, id2);
    assert SamlOf(rows, t2, id2).Some? ==> RowOf(rows, t2, id2).Some?;
  }

  lemma {:induction false} WriteKeepsConsistent(rows: Rows, t: string, id: string, cfg: SAMLConfig, row: AppRow,
                                                reserve: bool, release: string)
    requires Consistent(rows) && WriteOk(rows, t, id, cfg, row, reserve, release)
    ensures Consistent(Written(rows, t, id, cfg, row, reserve, release))
  {
    forall t2, id2 {
      WrittenRows(rows, t, id, cfg, row, reserve, release, t2, id2);
    }
    forall t2, e, id2 | e != "" {
      WrittenMarkers(rows, t, id, cfg, row, reserve, release, t2, e, id2);
    }
  }

  lemma {:induction false} CreateKeepsConsistent(rows: Rows, op: Op)
    requires Consistent(rows) && Starts(rows, op) && IsCreate(op)
    ensures Consistent(Run(rows, op, []).0)
  {
    if op.CreateApp? {
      OidcCreateKeepsConsistent(rows, op);
    } else if Key(op.tenant, EntityUniqueSK(op.cfg.entityID)) !in rows {
      CreateAlone(rows, op.tenant, op.id, op.app, op.cfg);
      var row := NewRow(CreateApp(op.tenant, op.id, op.app, Some(op.cfg)));
      assert op == StartCreate(op.tenant, op.id, op.app, Some(op.cfg));
      var after := Written(rows, op.tenant, op.id, op.cfg, row, true, "");
      assert Run(rows, op, []).0 == after;
      if op.cfg.entityID == "" {
        EmptyReservationKeepsConsistent(rows, op.tenant, op.id);
        var reserved := rows[Key(op.tenant, EntityUniqueSK("")) := MarkerItem("", op.id)];
        assert after == Written(reserved, op.tenant, op.id, op.cfg, row, false, "");
        WriteKeepsConsistent(reserved, op.tenant, op.id, op.cfg, row, false, "");
      } else {
        WriteKeepsConsistent(rows, op.tenant, op.id, op.cfg, row, true, "");
      }
    } else {
      assert Run(rows, op, []).0 == rows;
    }
  }

  lemma {:induction false} EmptyReservationKeepsConsistent(rows: Rows, t: string, id: string)
    requires Consistent(rows)
    ensures var after := rows[Key(t, EntityUniqueSK("")) := MarkerItem("", id)];
            && Consistent(after) && (forall t2, id2 :: RowOf(after, t2, id2) == RowOf(rows, t2, id2))
  {
    var after := rows[Key(t, EntityUniqueSK("")) := MarkerItem("", id)];
    SameViewsStayConsistent(rows, after);
  }

  /** Consistency is a matter of the three views of the table. */
  lemma {:induction false} SameViewsStayConsistent(rows: Rows, after: Rows)
    requires Consistent(rows) && WellTyped(after)
    requires forall t, id :: RowOf(after, t, id) == RowOf(rows, t, id) && SamlOf(after, t, id) == SamlOf(rows, t, id)
    requires forall t, e :: e != "" ==> MarkerOf(after, t, e) == MarkerOf(rows, t, e)
    ensures Consistent(after)
  {
    forall t, id | RowOf(after, t, id).Some? ensures RowAgrees(after, t, id) {
      assert RowAgrees(rows, t, id);
    }
    forall t, e, id | e != "" ensures MarkerOf(after, t, e) == Some(id) <==> HasEntityID(after, t, id, e) {
      assert MarkerOf(rows, t, e) == Some(id) <==> HasEntityID(rows, t, id, e);
    }
  }

  /** Writing an application row that keeps entityID and index keys, or that has none. */
  lemma {:induction false} RowWriteKeepsConsistent(rows: Rows, t: string, id: string, row: AppRow)
    requires Consistent(rows) && id != "" && row.app.id == id
    requires match RowOf(rows, t, id)
             case Some(raw) => row.entityID == raw.entityID && row.gsi1PK == raw.gsi1PK && row.gsi1SK == raw.gsi1SK
             case None => row.entityID == "" && row.gsi1PK == ClientGSIPK(id) && row.gsi1SK == TenantPK(t)
    ensures Consistent(rows[Key(t, AppSK(id)) := AppItem(row)])
  {
    var after := rows[Key(t, AppSK(id)) := AppItem(row)];
    forall t2, id2 | RowOf(after, t2, id2).Some? ensures RowAgrees(after, t2, id2) {
      assert RowOf(rows, t2, id2).Some? ==> RowAgrees(rows, t2, id2);
      assert SamlOf(after, t2, id2) == SamlOf(rows, t2, id2);
    }
    forall t2, id2 | SamlOf(after, t2, id2).Some? ensures RowOf(after, t2, id2).Some? {
      assert SamlOf(rows, t2, id2).Some?;
    }
    forall t2, e, id2 | e != "" ensures MarkerOf(after, t2, e) == Some(id2) <==> HasEntityID(after, t2, id2, e) {
      assert MarkerOf(rows, t2, e) == Some(id2) <==> HasEntityID(rows, t2, id2, e);
      assert MarkerOf(after, t2, e) == MarkerOf(rows, t2, e);
    }
  }

  lemma {:induction false} OidcCreateKeepsConsistent(rows: Rows, op: Op)
    requires Consistent(rows) && Starts(rows, op) && op.CreateApp?
    ensures Consistent(Run(rows, op, []).0)
  {
    var (after, done) := Step(rows, op, false);
    assert Run(rows, op, []) == Run(after, done, []) == (after, Created(op.id), []);
    RowWriteKeepsConsistent(rows, op.tenant, op.id, NewRow(op));
  }

  lemma {:induction false} RenameKeepsConsistent(rows: Rows, t: string, id: string, cfg: SAMLConfig)
    requires Consistent(rows)
    ensures Consistent(Run(rows, RenameGet(t, id, cfg), []).0)
  {
    if RowOf(rows, t, id).None? {
      assert Run(rows, RenameGet(t, id, cfg), []).0 == rows;
    } else {
      var raw := RowOf(rows, t, id).value;
      assert RowAgrees(rows, t, id);
      if cfg.entityID == raw.entityID {
        RewriteAlone(rows, t, id, cfg);
        WriteKeepsConsistent(rows, t, id, cfg, RenamedRow(RenameApp(t, id, cfg, raw)), false, "");
      } else if Key(t, EntityUniqueSK(cfg.entityID)) in rows {
        RenameRefused(rows, t, id, cfg);
      } else {
        RealRenameKeepsConsistent(rows, t, id, cfg);
      }
    }
  }

  lemma {:induction false} RealRenameKeepsConsistent(rows: Rows, t: string, id: string, cfg: SAMLConfig)
    requires Consistent(rows) && RowOf(rows, t, id).Some? && RowOf(rows, t, id).value.entityID != cfg.entityID
    requires Key(t, EntityUniqueSK(cfg.entityID)) !in rows
    ensures Consistent(Run(rows, RenameGet(t, id, cfg), []).0)
  {
    var raw := RowOf(rows, t, id).value;
    var row := RenamedRow(RenameApp(t, id, cfg, raw));
    assert RowAgrees(rows, t, id);
    if raw.entityID == "" {
      FirstConfigAlone(rows, t, id, cfg);
      WriteKeepsConsistent(rows, t, id, cfg, row, true, "");
    } else {
      RenameAlone(rows, t, id, cfg);
      WriteKeepsConsistent(rows, t, id, cfg, row, true, raw.entityID);
    }
  }

  /** A fault-free UpdateSAMLConfig that keeps the entityID. */
  lemma {:induction false} RewriteAlone(rows: Rows, t: string, id: string, cfg: SAMLConfig)
    requires RowOf(rows, t, id).Some? && RowOf(rows, t, id).value.entityID == cfg.entityID
    ensures var r := Run(rows, RenameGet(t, id, cfg), []);
            var raw := RowOf(rows, t, id).value;
            && r.1 == Done
            && r.0 == rows[Key(t, SamlSK(id)) := SamlItem(cfg)]
                          [Key(t, AppSK(id)) := AppItem(RenamedRow(RenameApp(t, id, cfg, raw)))]
  {
    var raw := RowOf(rows, t, id).value;
    var (rows1, op1) := Step(rows, RenameSaml(t, id, cfg, raw), false);
    var (rows2, op2) := Step(rows1, op1, false);
    assert Run(rows1, op1, []) == Run(rows2, op2, []) == (rows2, Done, []);
    assert Run(rows, RenameSaml(t, id, cfg, raw), []) == Run(rows1, op1, []);
    assert Run(rows, RenameReload(t, id, cfg), []) == Run(rows, RenameSaml(t, id, cfg, raw), []);
  }

  lemma {:induction false} RenameRefused(rows: Rows, t: string, id: string, cfg: SAMLConfig)
    requires RowOf(rows, t, id).Some? && RowOf(rows, t, id).value.entityID != cfg.entityID
    requires Key(t, EntityUniqueSK(cfg.entityID)) in rows
    ensures Run(rows, RenameGet(t, id, cfg), []) == (rows, DuplicateEntityID, [])
  {
    var reserve := RenameReserve(t, id, cfg, RowOf(rows, t, id).value);
    assert Run(rows, reserve, []) == (rows, DuplicateEntityID, []);
    assert Run(rows, RenameReload(t, id, cfg), []) == Run(rows, reserve, []);
  }

  /** A fault-free UpdateSAMLConfig giving an application without an entityID its first. */
  lemma {:induction false} FirstConfigAlone(rows: Rows, t: string, id: string, cfg: SAMLConfig)
    requires RowOf(rows, t, id).Some? && RowOf(rows, t, id).value.entityID == "" != cfg.entityID
    requires Key(t, EntityUniqueSK(cfg.entityID)) !in rows
    ensures var r := Run(rows, RenameGet(t, id, cfg), []);
            var raw := RowOf(rows, t, id).value;
            && r.1 == Done
            && r.0 == rows[Key(t, EntityUniqueSK(cfg.entityID)) := MarkerItem(cfg.entityID, id)]
                          [Key(t, SamlSK(id)) := SamlItem(cfg)]
                          [Key(t, AppSK(id)) := AppItem(RenamedRow(RenameApp(t, id, cfg, raw)))]
  {
    var raw := RowOf(rows, t, id).value;
    var (rows1, op1) := Step(rows, RenameReserve(t, id, cfg, raw), false);
    var (rows2, op2) := Step(rows1, op1, false);
    var (rows3, op3) := Step(rows2, op2, false);
    assert Run(rows2, op2, []) == Run(rows3, op3, []) == (rows3, Done, []);
    assert Run(rows1, op1, []) == Run(rows2, op2, []);
    assert Run(rows, RenameReserve(t, id, cfg, raw), []) == Run(rows1, op1, []);
    assert Run(rows, RenameReload(t, id, cfg), []) == Run(rows, RenameReserve(t, id, cfg, raw), []);
  }

  lemma {:induction false} UpdateKeepsConsistent(rows: Rows, t: string, id: string, app: Application)
    requires Consistent(rows) && app.id == id
    ensures Consistent(Run(rows, UpdateGet(t, id, app), []).0)
    ensures RowOf(rows, t, id).Some? ==>
              Run(rows, UpdateGet(t, id, app), []).0
                == rows[Key(t, AppSK(id)) := AppItem(RowOf(rows, t, id).value.(app := app))]
  {
    var after := Run(rows, UpdateGet(t, id, app), []).0;
    if RowOf(rows, t, id).None? {
      assert Run(rows, UpdateGet(t, id, app), []) == Run(rows, Finished(Missing), []);
    } else {
      var raw := RowOf(rows, t, id).value;
      var (rows1, op1) := Step(rows, UpdatePut(t, id, app, raw), false);
      assert Run(rows, UpdatePut(t, id, app, raw), []) == (rows1, Done, []);
      assert Run(rows, UpdateReload(t, id, app), []) == Run(rows, UpdatePut(t, id, app, raw), []);
      assert RowAgrees(rows, t, id);
      RowWriteKeepsConsistent(rows, t, id, raw.(app := app));
    }
  }

  /** The keys a Delete removes. */
  function DeletedKeys(t: string, id: string, entityID: string): set<Key> {
    {Key(t, AppSK(id)), Key(t, SamlSK(id)), Key(t, OidcSK(id))}
    + if entityID != "" then {Key(t, EntityUniqueSK(entityID))} else {}
  }

  lemma {:induction false} DeleteAlone(rows: Rows, t: string, id: string)
    requires RowOf(rows, t, id).Some?
    ensures Run(rows, DeleteGet(t, id), []) == (rows - DeletedKeys(t, id, RowOf(rows, t, id).value.entityID), Done, [])
  {
    var raw := RowOf(rows, t, id).value;
    var (rows1, op1) := Step(rows, DeleteApp(t, id, raw), false);
    var (rows2, op2) := Step(rows1, op1, false);
    var (rows3, op3) := Step(rows2, op2, false);
    if raw.entityID != "" {
      var (rows4, op4) := Step(rows3, op3, false);
      assert Run(rows3, op3, []) == (rows4, Done, []);
      assert rows4 == rows - DeletedKeys(t, id, raw.entityID);
    } else {
      assert Run(rows3, op3, []) == (rows3, Done, []);
      assert rows3 == rows - DeletedKeys(t, id, raw.entityID);
    }
    assert Run(rows2, op2, []) == Run(rows3, op3, []);
    assert Run(rows1, op1, []) == Run(rows2, op2, []);
    assert Run(rows, DeleteApp(t, id, raw), []) == Run(rows1, op1, []);
  }

  lemma {:induction false} DeletedViews(rows: Rows, t: string, id: string, e0: string, t2: string, id2: string,
                                        e: string)
    requires Consistent(rows) && HasEntityID(rows, t, id, e0)
    ensures var after := rows - DeletedKeys(t, id, e0);
            && RowOf(after, t2, id2) == (if t2 == t && id2 == id then None else RowOf(rows, t2, id2))
            && SamlOf(after, t2, id2) == (if t2 == t && id2 == id then None else SamlOf(rows, t2, id2))
            && (e != "" ==> (MarkerOf(after, t2, e) == Some(id2) <==> HasEntityID(after, t2, id2, e)))
  {
    assert e != "" ==> (MarkerOf(rows, t2, e) == Some(id2) <==> HasEntityID(rows, t2, id2, e));
    assert e != "" ==> (MarkerOf(rows, t2, e) == Some(id) <==> HasEntityID(rows, t2, id, e));
  }

  lemma {:induction false} DeleteKeepsConsistent(rows: Rows, t: string, id: string)
    requires Consistent(rows)
    ensures Consistent(Run(rows, DeleteGet(t, id), []).0)
  {
    if RowOf(rows, t, id).None? {
      assert Run(rows, DeleteGet(t, id), []).0 == rows;
    } else {
      var e0 := RowOf(rows, t, id).value.entityID;
      var after := rows - DeletedKeys(t, id, e0);
      DeleteAlone(rows, t, id);
      forall t2, id2 | RowOf(after, t2, id2).Some? ensures RowAgrees(after, t2, id2) {
        DeletedViews(rows, t, id, e0, t2, id2, "");
        assert RowAgrees(rows, t2, id2);
      }
      forall t2, id2 | SamlOf(after, t2, id2).Some? ensures RowOf(after, t2, id2).Some? {
        DeletedViews(rows, t, id, e0, t2, id2, "");
      }
      forall t2, e, id2 | e != "" ensures MarkerOf(after, t2, e) == Some(id2) <==> HasEntityID(after, t2, id2, e) {
        DeletedViews(rows, t, id, e0, t2, id2, e);
      }
    }
  }

  /** A serial history: each call runs alone and without faults, Creates with ids not
      in the table. */
  predicate SerialHistory(rows: Rows, calls: seq<Op>)
    decreases |calls|
  {
    calls == [] || (Starts(rows, calls[0]) && SerialHistory(Run(rows, calls[0], []).0, calls[1..]))
  }

  function AfterHistory(rows: Rows, calls: seq<Op>): Rows
    requires SerialHistory(rows, calls)
    decreases |calls|
  {
    if calls == [] then rows else AfterHistory(Run(rows, calls[0], []).0, calls[1..])
  }

  lemma {:induction false} CallKeepsConsistent(rows: Rows, op: Op)
    requires Consistent(rows) && Starts(rows, op)
    ensures Consistent(Run(rows, op, []).0)
  {
    if op.RenameGet? {
      RenameKeepsConsistent(rows, op.tenant, op.id, op.cfg);
    } else if op.UpdateGet? {
      UpdateKeepsConsistent(rows, op.tenant, op.id, op.app);
    } else if op.DeleteGet? {
      DeleteKeepsConsistent(rows, op.tenant, op.id);
    } else {
      CreateKeepsConsistent(rows, op);
    }
  }

  /** Every fault-free serial history from the empty table ends in agreement. */
  lemma {:induction false} SerialRunsStayConsistent(rows: Rows, calls: seq<Op>)
    requires Consistent(rows) && SerialHistory(rows, calls)
    ensures Consistent(AfterHistory(rows, calls))
    decreases |calls|
  {
    if calls == [] {
    } else {
      CallKeepsConsistent(rows, calls[0]);
      SerialRunsStayConsistent(Run(rows, calls[0], []).0, calls[1..]);
    }
  }

  /** In a consistent table a SAML Create is refused exactly when an application of the
      tenant carries the entityID. */
  lemma {:induction false} CreateRefusedIffTaken(rows: Rows, t: string, id: string, app: Application, cfg: SAMLConfig)
    requires Consistent(rows) && cfg.entityID != ""
    ensures Run(rows, StartCreate(t, id, app, Some(cfg)), []).1 == DuplicateEntityID
            <==> exists other :: HasEntityID(rows, t, other, cfg.entityID)
    ensures Run(rows, StartCreate(t, id, app, Some(cfg)), []).1 in {DuplicateEntityID, Created(id)}
  {
    var k := Key(t, EntityUniqueSK(cfg.entityID));
    if k in rows {
      assert Run(rows, StartCreate(t, id, app, Some(cfg)), []).1 == DuplicateEntityID;
      assert MarkerOf(rows, t, cfg.entityID) == Some(rows[k].appID);
      assert HasEntityID(rows, t, rows[k].appID, cfg.entityID);
    } else {
      CreateAlone(rows, t, id, app, cfg);
      forall other ensures !HasEntityID(rows, t, other, cfg.entityID) {
        assert MarkerOf(rows, t, cfg.entityID) != Some(other);
      }
    }
  }

  // ---------- Index keys ----------

  lemma {:induction false} SameTenantPK(a: string, b: string)
    requires TenantPK(a) == TenantPK(b)
    ensures a == b
  {
    assert TenantPK(a)[7..] == a && TenantPK(b)[7..] == b;
  }

  /** Index keys of one tenant tell its entityIDs apart, whatever the slug holds. */
  lemma {:induction false} GSIKeyFixesEntityID(t: string, a: string, b: string)
    requires EntityGSIPK(t, a) == EntityGSIPK(t, b)
    ensures a == b
  {
    var n := |"ENTITY#" + t + "#"|;
    assert EntityGSIPK(t, a)[n..] == a && EntityGSIPK(t, b)[n..] == b;
  }

  /** Between tenants they are distinct when slugs hold no '#'. */
  lemma {:induction false} GSIKeyFixesTenant(t1: string, a: string, t2: string, b: string)
    requires '#' !in t1 && '#' !in t2 && EntityGSIPK(t1, a) == EntityGSIPK(t2, b)
    ensures t1 == t2 && a == b
  {
    assert EntityGSIPK(t1, a)[7..] == t1 + ['#'] + a;
    assert EntityGSIPK(t2, b)[7..] == t2 + ['#'] + b;
    HeadsUnique(t1, a, t2, b, '#');
  }

  /** Two tenants have entityIDs whose index keys meet exactly when they are one tenant or one
      slug, with '#' after it, begins the other. */
  lemma {:induction false} GSIKeysMeetIff(t1: string, t2: string)
    ensures (exists a, b :: EntityGSIPK(t1, a) == EntityGSIPK(t2, b)) <==> t1 == t2 || t1 + "#" <= t2 || t2 + "#" <= t1
  {
    HeadsMeetIff(t1 + "#", t2 + "#");
    forall a, b ensures EntityGSIPK(t1, a) == EntityGSIPK(t2, b) <==> (t1 + "#") + a == (t2 + "#") + b {
      assert EntityGSIPK(t1, a) == "ENTITY#" + ((t1 + "#") + a) && EntityGSIPK(t2, b) == "ENTITY#" + ((t2 + "#") + b);
      assert EntityGSIPK(t1, a)[7..] == (t1 + "#") + a && EntityGSIPK(t2, b)[7..] == (t2 + "#") + b;
    }
    HashedPrefix(t1, t2);
    HashedPrefix(t2, t1);
    if a, b :| (t1 + "#") + a == (t2 + "#") + b { assert EntityGSIPK(t1, a) == EntityGSIPK(t2, b); }
  }

  lemma {:induction false} GSIKindsDiffer(t: string, e: string, id: string)
    ensures EntityGSIPK(t, e) != ClientGSIPK(id)
  {
    assert EntityGSIPK(t, e)[0] != ClientGSIPK(id)[0];
  }

  datatype LookupError = LookupNotFound | TenantMismatch | MissingAppID | LookupFailed

  datatype Lookup = Lookup(tenant: string, app: Application, saml: Option<SAMLConfig>)

  /** The keys an entityID lookup reads from the index. */
  ghost function GSIMatches(rows: Rows, gsi1PK: string): set<Key> {
    set k | k in rows && rows[k].AppItem? && rows[k].row.gsi1PK == gsi1PK
  }

  /** Fault-free serial tables are among those every run keeps indexed. */
  lemma {:induction false} ConsistentIsIndexed(rows: Rows)
    requires Consistent(rows)
    ensures Indexed(rows) && UniqueEntityIDs(rows)
  {
    forall k | k in rows && rows[k].AppItem? ensures RowIndexed(rows[k].row, k.tenant, k.sk.id) {
      assert RowOf(rows, k.tenant, k.sk.id) == Some(rows[k].row);
      assert RowAgrees(rows, k.tenant, k.sk.id);
    }
    forall t, a, b | RowOf(rows, t, a).Some? && RowOf(rows, t, b).Some?
                     && RowOf(rows, t, a).value.entityID == RowOf(rows, t, b).value.entityID != ""
      ensures a == b
    {
      var e := RowOf(rows, t, a).value.entityID;
      assert HasEntityID(rows, t, a, e) && HasEntityID(rows, t, b, e);
      assert MarkerOf(rows, t, e) == Some(a) && MarkerOf(rows, t, e) == Some(b);
    }
  }

  /** In every table that runs can reach, an index entry whose tenant attribute matches the
      request belongs to the request's tenant and carries the requested entityID, even if
      key strings of other tenants collide with it. */
  lemma {:induction false} TrustedEntryIsOurs(rows: Rows, t: string, e: string, k: Key)
    requires Indexed(rows) && k in GSIMatches(rows, EntityGSIPK(t, e)) && rows[k].row.gsi1SK == TenantPK(t)
    ensures k == Key(t, AppSK(rows[k].row.app.id)) && HasEntityID(rows, t, rows[k].row.app.id, e)
  {
    var row := rows[k].row;
    assert RowIndexed(row, k.tenant, k.sk.id);
    SameTenantPK(k.tenant, t);
    if row.gsi1PK == EntityGSIPK(t, row.entityID) {
      GSIKeyFixesEntityID(t, row.entityID, e);
    } else {
      GSIKindsDiffer(t, e, k.sk.id);
    }
  }

  ghost predicate SlugsHashFree(rows: Rows) {
    forall k :: k in rows ==> '#' !in k.tenant
  }

  /** With '#'-free slugs the index holds exactly the tenant's application with that
      entityID, if there is one, in every table that runs can reach. */
  lemma {:induction false} IndexHoldsTheApplication(rows: Rows, t: string, e: string)
    requires Indexed(rows) && UniqueEntityIDs(rows) && SlugsHashFree(rows) && '#' !in t && e != ""
    ensures forall k ::
              k in GSIMatches(rows, EntityGSIPK(t, e))
              <==> k.tenant == t && k.sk.AppSK? && HasEntityID(rows, t, k.sk.id, e)
    ensures forall k ::
              k in GSIMatches(rows, EntityGSIPK(t, e))
              ==> rows[k].row.gsi1SK == TenantPK(t) && rows[k].row.app.id == k.sk.id
    ensures forall a, b :: HasEntityID(rows, t, a, e) && HasEntityID(rows, t, b, e) ==> a == b
  {
    forall k | k in GSIMatches(rows, EntityGSIPK(t, e))
      ensures k.tenant == t && HasEntityID(rows, t, k.sk.id, e)
    {
      var row := rows[k].row;
      assert RowIndexed(row, k.tenant, k.sk.id);
      if row.gsi1PK == EntityGSIPK(k.tenant, row.entityID) {
        GSIKeyFixesTenant(k.tenant, row.entityID, t, e);
      } else {
        GSIKindsDiffer(t, e, k.sk.id);
      }
    }
    forall k: Key | k.tenant == t && k.sk.AppSK? && HasEntityID(rows, t, k.sk.id, e)
      ensures k in GSIMatches(rows, EntityGSIPK(t, e))
    {
      assert RowIndexed(rows[k].row, t, k.sk.id);
    }
  }

  /** The index entries of a client id are the OIDC-only applications with that id. */
  lemma {:induction false} ClientEntries(rows: Rows, clientID: string)
    requires Consistent(rows)
    ensures forall k :: k in GSIMatches(rows, ClientGSIPK(clientID))
                        <==> k in rows && k.sk == AppSK(clientID) && SamlOf(rows, k.tenant, clientID) == None
    ensures forall k :: k in GSIMatches(rows, ClientGSIPK(clientID))
                        ==> rows[k].row.gsi1SK == "TENANT#" + k.tenant && rows[k].row.app.id == clientID != ""
  {
    forall k | k in rows && k.sk.AppSK?
      ensures k in GSIMatches(rows, ClientGSIPK(clientID))
              <==> k.sk == AppSK(clientID) && SamlOf(rows, k.tenant, clientID) == None
      ensures rows[k].row.gsi1SK == "TENANT#" + k.tenant && rows[k].row.app.id == k.sk.id != ""
    {
      assert RowOf(rows, k.tenant, k.sk.id) == Some(rows[k].row);
      assert RowAgrees(rows, k.tenant, k.sk.id);
      if SamlOf(rows, k.tenant, k.sk.id).Some? {
        GSIKindsDiffer(k.tenant, rows[k].row.entityID, clientID);
      }
      assert ClientGSIPK(k.sk.id)[9..] == k.sk.id && ClientGSIPK(clientID)[9..] == clientID;
    }
  }

  function OidcOf(rows: Rows, t: string, id: string): Option<OIDCConfig> {
    var k := Key(t, OidcSK(id));
    if k in rows && rows[k].OidcItem? then Some(rows[k].oidc) else None
  }

  /** Giving an OIDC client a SAML configuration makes it unfindable by its client id: the
      update overwrites its only index key. */
  lemma {:induction false} SAMLConfigHidesClient(rows: Rows, t: string, id: string, cfg: SAMLConfig)
    requires Consistent(rows) && RowOf(rows, t, id).Some? && Run(rows, RenameGet(t, id, cfg), []).1 == Done
    ensures forall k :: k in GSIMatches(Run(rows, RenameGet(t, id, cfg), []).0, ClientGSIPK(id)) ==> k.tenant != t
  {
    hide Run, Consistent;
    var after := Run(rows, RenameGet(t, id, cfg), []).0;
    RenameKeepsConsistent(rows, t, id, cfg);
    ClientEntries(after, id);
    RenamedHasConfig(rows, t, id, cfg);
  }

  lemma {:induction false} RenamedHasConfig(rows: Rows, t: string, id: string, cfg: SAMLConfig)
    requires RowOf(rows, t, id).Some? && Run(rows, RenameGet(t, id, cfg), []).1 == Done
    ensures SamlOf(Run(rows, RenameGet(t, id, cfg), []).0, t, id).Some?
  {
    hide Run;
    var raw := RowOf(rows, t, id).value;
    if raw.entityID == cfg.entityID {
      RewriteAlone(rows, t, id, cfg);
    } else if Key(t, EntityUniqueSK(cfg.entityID)) in rows {
      RenameRefused(rows, t, id, cfg);
    } else if raw.entityID == "" {
      FirstConfigAlone(rows, t, id, cfg);
    } else {
      RenameAlone(rows, t, id, cfg);
    }
  }

  ghost predicate IdsHashFree(rows: Rows) {
    forall k :: k in rows ==> IdHashFree(k.sk)
  }

  predicate IsApplication(rows: Rows, k: Key) {
    k in rows && rows[k].AppItem? && ListedAsApplication(Render(k.sk))
  }

  ghost function ApplicationKeys(rows: Rows, tenant: string): set<Key> {
    set k | k in rows && k.tenant == tenant && k.sk.AppSK?
  }

  // ---------- The store ----------

  class AppStore {
    const db: Table

    constructor (db: Table)
      ensures this.db == db
    {
      this.db := db;
    }

    /** The call `op` ran alone on the table. */
    twostate predicate Ran(op: Op, outcome: Outcome)
      reads db
    {
      (db.rows, outcome, db.faults) == Run(old(db.rows), op, old(db.faults))
    }

    /** The call `start`, begun in the old state, has got as far as `op`. */
    twostate predicate At(start: Op, op: Op)
      reads db
    {
      Run(old(db.rows), start, old(db.faults)) == Run(db.rows, op, db.faults)
    }

    /** `id` stands for the result of generateID. */
    method Create(tenant: string, app: Application, samlCfg: Option<SAMLConfig>, id: string) returns (outcome: Outcome)
      modifies db
      ensures Ran(StartCreate(tenant, id, app, samlCfg), outcome)
      // An OIDC application: one write, under the client-id index key.
      ensures samlCfg.None? ==>
                if FaultAt(old(db.faults), 0) then outcome == StoreFailed && db.rows == old(db.rows)
                else && outcome == Created(id)
                     && db.rows == old(db.rows)[Key(tenant, AppSK(id)) :=
                                                AppItem(AppRow(app.(id := id), "", "CLIENTID#" + id,
                                                               "TENANT#" + tenant))]
      // A SAML application: the reservation, the application row, the configuration.
      ensures samlCfg.Some? ==>
                var e := samlCfg.value.entityID;
                var marker := Key(tenant, EntityUniqueSK(e));
                var reserved := old(db.rows)[marker := MarkerItem(e, id)];
                var row := AppRow(app.(id := id), e, "ENTITY#" + tenant + "#" + e, "TENANT#" + tenant);
                var written := reserved[Key(tenant, AppSK(id)) := AppItem(row)];
                if FaultAt(old(db.faults), 0) then outcome == StoreFailed && db.rows == old(db.rows)
                else if marker in old(db.rows) then outcome == DuplicateEntityID && db.rows == old(db.rows)
                else if FaultAt(old(db.faults), 1) then
                  outcome == StoreFailed && db.rows == if FaultAt(old(db.faults), 2) then reserved else old(db.rows)
                else if FaultAt(old(db.faults), 2) then outcome == StoreFailed && db.rows == written
                else outcome == Created(id) && db.rows == written[Key(tenant, SamlSK(id)) := SamlItem(samlCfg.value)]
    {
      var newApp := app.(id := id);
      ghost var start := StartCreate(tenant, id, app, samlCfg);
      var entityID, gsi1PK := "", ClientGSIPK(id);
      if samlCfg.Some? {
        entityID := samlCfg.value.entityID;
        gsi1PK := EntityGSIPK(tenant, entityID);
        var e := db.PutIfNotExists(Key(tenant, EntityUniqueSK(entityID)), MarkerItem(entityID, id));
        if e.Some? {
          outcome := if e.value == ConditionFailed then DuplicateEntityID else StoreFailed;
          assert At(start, Finished(outcome));
          return;
        }
      }
      assert At(start, CreateApp(tenant, id, newApp, samlCfg));
      var row := AppRow(newApp, entityID, gsi1PK, TenantPK(tenant));
      var e := db.Put(Key(tenant, AppSK(id)), AppItem(row));
      if e.Some? {
        if samlCfg.Some? {
          assert At(start, CreateRollback(tenant, id, entityID));
          var _ := db.Delete(Key(tenant, EntityUniqueSK(entityID)));
        }
        assert At(start, Finished(StoreFailed));
        return StoreFailed;
      }
      if samlCfg.Some? {
        assert At(start, CreateSaml(tenant, id, samlCfg.value));
        e := db.Put(Key(tenant, SamlSK(id)), SamlItem(samlCfg.value));
        if e.Some? {
          assert At(start, Finished(StoreFailed));
          return StoreFailed;
        }
      }
      assert At(start, Finished(Created(id)));
      return Created(id);
    }

    /** Get: the application row, or the outcome that ends the call. */
    method GetRow(tenant: string, appID: string) returns (r: Result<AppRow, Outcome>)
      modifies db`faults
      ensures db.faults == LaterFaults(old(db.faults))
      ensures r == if NextFault(old(db.faults)) then Err(StoreFailed)
                   else match RowOf(db.rows, tenant, appID)
                        case Some(row) => Ok(row)
                        case None => Err(Missing)
    {
      var got := db.Get(Key(tenant, AppSK(appID)));
      match got
      case Ok(item) => r := if item.AppItem? then Ok(item.row) else Err(Missing);
      case Err(e) => r := Err(if e == NotFound then Missing else StoreFailed);
    }

    method UpdateSAMLConfig(tenant: string, appID: string, cfg: SAMLConfig) returns (outcome: Outcome)
      modifies db
      ensures Ran(RenameGet(tenant, appID, cfg), outcome)
      // Nothing written: a read fails, the application is missing, the new entityID is taken.
      ensures FaultAt(old(db.faults), 0) ==> outcome == StoreFailed && db.rows == old(db.rows)
      ensures !FaultAt(old(db.faults), 0) && RowOf(old(db.rows), tenant, appID).None? ==>
                outcome == Missing && db.rows == old(db.rows)
      ensures !FaultAt(old(db.faults), 0) && RowOf(old(db.rows), tenant, appID).Some? ==>
                var (raw, marker) :=
                  (RowOf(old(db.rows), tenant, appID).value, Key(tenant, EntityUniqueSK(cfg.entityID)));
                var renames := cfg.entityID != raw.entityID;
                var i := if renames then 3 else 2;
                var reserved := if renames then old(db.rows)[marker := MarkerItem(cfg.entityID, appID)]
                  else old(db.rows);
                var configured := reserved[Key(tenant, SamlSK(appID)) := SamlItem(cfg)];
                var row := raw.(entityID := cfg.entityID, gsi1PK := "ENTITY#" + tenant + "#" + cfg.entityID);
                var renamed := configured[Key(tenant, AppSK(appID)) := AppItem(row)];
                if FaultAt(old(db.faults), 1) || (renames && FaultAt(old(db.faults), 2)) then
                  outcome == StoreFailed && db.rows == old(db.rows)
                else if renames && marker in old(db.rows) then outcome == DuplicateEntityID && db.rows == old(db.rows)
                // The configuration cannot be written: the reservation is given back, best effort.
                else if FaultAt(old(db.faults), i) then
                  outcome == StoreFailed && db.rows == if FaultAt(old(db.faults), i + 1) then reserved else old(db.rows)
                else if FaultAt(old(db.faults), i + 1) then outcome == StoreFailed && db.rows == configured
                // Renamed: the old reservation is released, best effort.
                else && outcome == Done
                     && db.rows == if renames && raw.entityID != "" && !FaultAt(old(db.faults), i + 2)
                                   then renamed - {Key(tenant, EntityUniqueSK(raw.entityID))} else renamed
    {
      ghost var start := RenameGet(tenant, appID, cfg);
      var existing := GetRow(tenant, appID);
      if existing.Err? {
        assert At(start, Finished(existing.error));
        return existing.error;
      }
      assert At(start, RenameReload(tenant, appID, cfg));
      var reloaded := GetRow(tenant, appID);
      if reloaded.Err? {
        assert At(start, Finished(reloaded.error));
        return reloaded.error;
      }
      var raw := reloaded.value;
      if cfg.entityID != raw.entityID {
        assert At(start, RenameReserve(tenant, appID, cfg, raw));
        outcome := ReserveRename(tenant, appID, cfg, raw);
      } else {
        assert At(start, RenameSaml(tenant, appID, cfg, raw));
        outcome := WriteRename(tenant, appID, cfg, raw);
      }
    }

    /** UpdateSAMLConfig under a new entityID, once the application has been read. */
    method ReserveRename(tenant: string, appID: string, cfg: SAMLConfig, raw: AppRow) returns (outcome: Outcome)
      requires cfg.entityID != raw.entityID
      modifies db
      ensures Ran(RenameReserve(tenant, appID, cfg, raw), outcome)
      ensures var marker := Key(tenant, EntityUniqueSK(cfg.entityID));
              var reserved := old(db.rows)[marker := MarkerItem(cfg.entityID, appID)];
              var configured := reserved[Key(tenant, SamlSK(appID)) := SamlItem(cfg)];
              var row := raw.(entityID := cfg.entityID, gsi1PK := "ENTITY#" + tenant + "#" + cfg.entityID);
              var renamed := configured[Key(tenant, AppSK(appID)) := AppItem(row)];
              if FaultAt(old(db.faults), 0) then outcome == StoreFailed && db.rows == old(db.rows)
              else if marker in old(db.rows) then outcome == DuplicateEntityID && db.rows == old(db.rows)
              else if FaultAt(old(db.faults), 1) then
                outcome == StoreFailed && db.rows == if FaultAt(old(db.faults), 2) then reserved else old(db.rows)
              else if FaultAt(old(db.faults), 2) then outcome == StoreFailed && db.rows == configured
              else && outcome == Done
                   && db.rows == if raw.entityID != "" && !FaultAt(old(db.faults), 3)
                                 then renamed - {Key(tenant, EntityUniqueSK(raw.entityID))} else renamed
    {
      ghost var start := RenameReserve(tenant, appID, cfg, raw);
      var e := db.PutIfNotExists(Key(tenant, EntityUniqueSK(cfg.entityID)), MarkerItem(cfg.entityID, appID));
      if e.Some? {
        outcome := if e.value == ConditionFailed then DuplicateEntityID else StoreFailed;
        assert At(start, Finished(outcome));
        return;
      }
      assert At(start, RenameSaml(tenant, appID, cfg, raw));
      outcome := WriteRename(tenant, appID, cfg, raw);
    }

    /** The rest of UpdateSAMLConfig, once the new entityID is reserved. */
    method WriteRename(tenant: string, appID: string, cfg: SAMLConfig, raw: AppRow) returns (outcome: Outcome)
      modifies db
      ensures Ran(RenameSaml(tenant, appID, cfg, raw), outcome)
      ensures var renames := cfg.entityID != raw.entityID;
              var configured := old(db.rows)[Key(tenant, SamlSK(appID)) := SamlItem(cfg)];
              var row := raw.(entityID := cfg.entityID, gsi1PK := "ENTITY#" + tenant + "#" + cfg.entityID);
              var renamed := configured[Key(tenant, AppSK(appID)) := AppItem(row)];
              if FaultAt(old(db.faults), 0) then
                && outcome == StoreFailed
                && db.rows == if renames && !FaultAt(old(db.faults), 1)
                              then old(db.rows) - {Key(tenant, EntityUniqueSK(cfg.entityID))} else old(db.rows)
              else if FaultAt(old(db.faults), 1) then outcome == StoreFailed && db.rows == configured
              else && outcome == Done
                   && db.rows == if renames && raw.entityID != "" && !FaultAt(old(db.faults), 2)
                                 then renamed - {Key(tenant, EntityUniqueSK(raw.entityID))} else renamed
    {
      ghost var start := RenameSaml(tenant, appID, cfg, raw);
      var e := db.Put(Key(tenant, SamlSK(appID)), SamlItem(cfg));
      if e.Some? {
        if cfg.entityID != raw.entityID {
          assert At(start, RenameRollback(tenant, appID, cfg.entityID));
          var _ := db.Delete(Key(tenant, EntityUniqueSK(cfg.entityID)));
        }
        assert At(start, Finished(StoreFailed));
        return StoreFailed;
      }
      assert At(start, RenameApp(tenant, appID, cfg, raw));
      var row := raw.(gsi1PK := EntityGSIPK(tenant, cfg.entityID), entityID := cfg.entityID);
      e := db.Put(Key(tenant, AppSK(appID)), AppItem(row));
      if e.Some? {
        assert At(start, Finished(StoreFailed));
        return StoreFailed;
      }
      if raw.entityID != "" && cfg.entityID != raw.entityID {
        assert At(start, RenameRelease(tenant, appID, raw.entityID));
        var _ := db.Delete(Key(tenant, EntityUniqueSK(raw.entityID)));
      }
      assert At(start, Finished(Done));
      return Done;
    }

    method Update(tenant: string, app: Application) returns (outcome: Outcome)
      modifies db
      ensures app.id == "" ==> outcome == Missing && db.rows == old(db.rows)
      ensures app.id != "" ==> Ran(UpdateGet(tenant, app.id, app), outcome)
      ensures app.id != "" ==>
                var row := RowOf(old(db.rows), tenant, app.id);
                && (outcome == Done <==> && row.Some? && !FaultAt(old(db.faults), 0) && !FaultAt(old(db.faults), 1)
                                         && !FaultAt(old(db.faults), 2))
                && (outcome == Missing <==> row.None? && !FaultAt(old(db.faults), 0))
                && outcome in {Done, Missing, StoreFailed}
                && db.rows == if outcome == Done
                              then old(db.rows)[Key(tenant, AppSK(app.id)) := AppItem(row.value.(app := app))]
                              else old(db.rows)
    {
      if app.id == "" {
        return Missing;
      }
      ghost var start := UpdateGet(tenant, app.id, app);
      var existing := GetRow(tenant, app.id);
      if existing.Err? {
        assert At(start, Finished(existing.error));
        return existing.error;
      }
      assert At(start, UpdateReload(tenant, app.id, app));
      var reloaded := GetRow(tenant, app.id);
      if reloaded.Err? {
        assert At(start, Finished(reloaded.error));
        return reloaded.error;
      }
      assert At(start, UpdatePut(tenant, app.id, app, reloaded.value));
      var e := db.Put(Key(tenant, AppSK(app.id)), AppItem(reloaded.value.(app := app)));
      outcome := if e.Some? then StoreFailed else Done;
      assert At(start, Finished(outcome));
    }

    method Delete(tenant: string, appID: string) returns (outcome: Outcome)
      modifies db
      ensures Ran(DeleteGet(tenant, appID), outcome)
      ensures var row := RowOf(old(db.rows), tenant, appID);
              && (outcome == Done <==> row.Some? && !FaultAt(old(db.faults), 0) && !FaultAt(old(db.faults), 1))
              && (outcome == Missing <==> row.None? && !FaultAt(old(db.faults), 0))
              && outcome in {Done, Missing, StoreFailed}
              && (outcome != Done ==> db.rows == old(db.rows))
              // The other rows go best effort.
              && (outcome == Done ==>
                    db.rows == old(db.rows) - {Key(tenant, AppSK(appID))}
                               - (if FaultAt(old(db.faults), 2) then {} else {Key(tenant, SamlSK(appID))})
                               - (if FaultAt(old(db.faults), 3) then {} else {Key(tenant, OidcSK(appID))})
                               - (if row.value.entityID == "" || FaultAt(old(db.faults), 4) then {}
                                  else {Key(tenant, EntityUniqueSK(row.value.entityID))}))
    {
      ghost var start := DeleteGet(tenant, appID);
      var existing := GetRow(tenant, appID);
      if existing.Err? {
        assert At(start, Finished(existing.error));
        return existing.error;
      }
      var raw := existing.value;
      assert At(start, DeleteApp(tenant, appID, raw));
      var e := db.Delete(Key(tenant, AppSK(appID)));
      if e.Some? {
        assert At(start, Finished(StoreFailed));
        return StoreFailed;
      }
      assert At(start, DeleteSaml(tenant, appID, raw.entityID));
      outcome := DeleteRest(tenant, appID, raw.entityID);
    }

    /** The best-effort deletes after the application row is gone. */
    method DeleteRest(tenant: string, appID: string, entityID: string) returns (outcome: Outcome)
      modifies db
      ensures Ran(DeleteSaml(tenant, appID, entityID), outcome)
      ensures outcome == Done
      ensures db.rows == old(db.rows)
                         - (if FaultAt(old(db.faults), 0) then {} else {Key(tenant, SamlSK(appID))})
                         - (if FaultAt(old(db.faults), 1) then {} else {Key(tenant, OidcSK(appID))})
                         - (if entityID == "" || FaultAt(old(db.faults), 2) then {}
                            else {Key(tenant, EntityUniqueSK(entityID))})
    {
      ghost var start := DeleteSaml(tenant, appID, entityID);
      var _ := db.Delete(Key(tenant, SamlSK(appID)));
      assert At(start, DeleteOidc(tenant, appID, entityID));
      var _ := db.Delete(Key(tenant, OidcSK(appID)));
      if entityID != "" {
        assert At(start, DeleteRelease(tenant, appID, entityID));
        var _ := db.Delete(Key(tenant, EntityUniqueSK(entityID)));
      }
      assert At(start, Finished(Done));
      return Done;
    }

    /** In every table that runs can reach: never an application of another tenant, never one
        with another entityID; without faults and with '#'-free slugs exactly the result of
        scanning the tenant's applications. */
    method GetByTenantEntityID(tenant: string, entityID: string) returns (r: Result<Lookup, LookupError>)
      modifies db`faults
      ensures FaultAt(old(db.faults), 0) ==> r == Err(LookupFailed)
      ensures r.Ok? ==> !FaultAt(old(db.faults), 1) && r.value.tenant == tenant
      ensures Indexed(db.rows) && r.Ok? && !FaultAt(old(db.faults), 2) ==>
                r.value.saml == SamlOf(db.rows, tenant, r.value.app.id)
      ensures Indexed(db.rows) && r.Ok? ==>
                && HasEntityID(db.rows, tenant, r.value.app.id, entityID)
                && RowOf(db.rows, tenant, r.value.app.id).value.app == r.value.app
                && (r.value.saml.Some? ==> r.value.saml == SamlOf(db.rows, tenant, r.value.app.id))
      ensures Indexed(db.rows) && UniqueEntityIDs(db.rows) && SlugsHashFree(db.rows) && RowOf(db.rows, tenant, "").None?
              && '#' !in tenant && entityID != "" && old(db.faults) == [] ==>
                && (r.Ok? <==> exists id :: HasEntityID(db.rows, tenant, id, entityID))
                && (r.Err? ==> r.error == LookupNotFound)
                && (r.Ok? ==> forall id :: HasEntityID(db.rows, tenant, id, entityID) ==> r.value.app.id == id)
                && (r.Ok? ==> r.value.saml == SamlOf(db.rows, tenant, r.value.app.id))
    {
      var items := db.QueryGSI(EntityGSIPK(tenant, entityID));
      if items.Err? {
        return Err(LookupFailed);
      }
      if Indexed(db.rows) && UniqueEntityIDs(db.rows) && SlugsHashFree(db.rows) && '#' !in tenant && entityID != "" {
        IndexHoldsTheApplication(db.rows, tenant, entityID);
      }
      if |items.value| == 0 {
        assert forall id :: HasEntityID(db.rows, tenant, id, entityID) ==> Key(tenant, AppSK(id)) !in items.value;
        return Err(LookupNotFound);
      }
      var first := items.value[0];
      assert first in items.value;
      var item := db.rows[first].row;
      if item.gsi1SK != TenantPK(tenant) {
        return Err(TenantMismatch);
      }
      if item.app.id == "" {
        return Err(MissingAppID);
      }
      if Indexed(db.rows) {
        TrustedEntryIsOurs(db.rows, tenant, entityID, first);
        assert RowIndexed(item, tenant, item.app.id);
      }
      var got := GetRow(tenant, item.app.id);
      if got.Err? {
        return Err(LookupFailed);
      }
      var saml := db.Get(Key(tenant, SamlSK(item.app.id)));
      var samlCfg := if saml.Ok? && saml.value.SamlItem? then Some(saml.value.saml) else None;
      return Ok(Lookup(tenant, got.value.app, samlCfg));
    }

    /** On a consistent table: the application the client id names, and only while it has
        no SAML configuration, because UpdateSAMLConfig overwrites its index key. */
    method GetByClientID(clientID: string) returns (r: Result<(string, Application, Option<OIDCConfig>), LookupError>)
      modifies db`faults
      ensures FaultAt(old(db.faults), 0) ==> r == Err(LookupFailed)
      ensures r.Ok? ==> !FaultAt(old(db.faults), 1)
      ensures Consistent(db.rows) && r.Ok? && !FaultAt(old(db.faults), 2) ==>
                r.value.2 == OidcOf(db.rows, r.value.0, clientID)
      ensures Consistent(db.rows) && r.Ok? ==>
                && r.value.1.id == clientID && RowOf(db.rows, r.value.0, clientID).Some?
                && RowOf(db.rows, r.value.0, clientID).value.app == r.value.1
                && SamlOf(db.rows, r.value.0, clientID) == None
                && (r.value.2.Some? ==> r.value.2 == OidcOf(db.rows, r.value.0, clientID))
      ensures Consistent(db.rows) && old(db.faults) == [] ==>
                && (r.Ok? ==> r.value.2 == OidcOf(db.rows, r.value.0, clientID))
                && (r.Ok? <==> exists t :: RowOf(db.rows, t, clientID).Some? && SamlOf(db.rows, t, clientID) == None)
                && (r.Err? ==> r.error == LookupNotFound)
    {
      var items := db.QueryGSI(ClientGSIPK(clientID));
      if items.Err? {
        return Err(LookupFailed);
      }
      if Consistent(db.rows) {
        ClientEntries(db.rows, clientID);
      }
      if |items.value| == 0 {
        assert forall t :: RowOf(db.rows, t, clientID).Some? ==> Key(t, AppSK(clientID)) !in items.value;
        return Err(LookupNotFound);
      }
      var first := items.value[0];
      assert first in items.value;
      var item := db.rows[first].row;
      if !HasPrefix(item.gsi1SK, "TENANT#") {
        return Err(TenantMismatch);
      }
      var tenant := item.gsi1SK[7..];
      if item.app.id == "" {
        return Err(MissingAppID);
      }
      var got := GetRow(tenant, item.app.id);
      if got.Err? {
        return Err(LookupFailed);
      }
      var oidc := db.Get(Key(tenant, OidcSK(item.app.id)));
      var oidcCfg := if oidc.Ok? && oidc.value.OidcItem? then Some(oidc.value.oidc) else None;
      return Ok((tenant, got.value.app, oidcCfg));
    }

    /** Exactly the application rows of the tenant, each once: SAML, OIDC, claim, role
        and marker rows are skipped. `keys` names the row each result comes from. */
    method List(tenant: string) returns (r: Result<seq<Application>, StoreError>, ghost keys: seq<Key>)
      modifies db`faults
      ensures r.Err? <==> NextFault(old(db.faults))
      ensures r.Ok? && WellTyped(db.rows) && IdsHashFree(db.rows) ==>
                && Enumerates(keys, ApplicationKeys(db.rows, tenant))
                && |keys| == |r.value|
                && forall i ::
                     0 <= i < |keys| ==> IsApplication(db.rows, keys[i]) && db.rows[keys[i]].row.app == r.value[i]
    {
      keys := [];
      var found := db.Query(tenant, "APP#");
      if found.Err? {
        return Err(found.error), [];
      }
      var apps: seq<Application> := [];
      for i := 0 to |found.value|
        invariant |apps| == |keys|
        invariant forall k :: k in keys <==> k in found.value[..i] && IsApplication(db.rows, k)
        invariant forall a, b :: 0 <= a < b < |keys| ==> keys[a] != keys[b]
        invariant forall j :: 0 <= j < |keys| ==> IsApplication(db.rows, keys[j]) && db.rows[keys[j]].row.app == apps[j]
      {
        var k := found.value[i];
        assert k in found.value && k !in found.value[..i];
        assert found.value[..i + 1] == found.value[..i] + [k];
        var suffix := Render(k.sk)[4..];
        if '#' !in suffix && db.rows[k].AppItem? {
          apps, keys := apps + [db.rows[k].row.app], keys + [k];
        }
      }
      if WellTyped(db.rows) && IdsHashFree(db.rows) {
        forall k | k in db.rows && k.tenant == tenant
          ensures k.sk.AppSK? <==> k in found.value && IsApplication(db.rows, k)
        {
          ListSelectsApplications(k.sk);
        }
        assert found.value[..|found.value|] == found.value;
      }
      return Ok(apps), keys;
    }
  }
}
