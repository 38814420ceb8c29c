/** The three certificate slots and everything that writes them: the rotation check, the
    admin import and the backup promotion (internal/crypto/cert_store.go,
    cert_rotation.go, cert_signer.go, internal/service/cert_manager.go,
    internal/oidc/verification_keys.go). Certificates are ideal: each wraps one key. */
module CertStore {
  import opened Wrappers
  import opened Clock
  import opened Table

  datatype Cert = Cert(serial: nat, notAfter: int, key: string)

  datatype Source = SelfSigned | CAIssued

  /** A stored certificate; an empty key id stands for the primary key. */
  datatype CertItem = CertItem(cert: Cert, source: Source, kmsKeyID: string)

  datatype Slots = Slots(active: Option<CertItem>, next: Option<CertItem>, backup: Option<CertItem>)

  datatype Config = Config(rotationWindowDays: int, promotionDelayDays: int)

  datatype Action = GeneratedInitial | NoAction | ImportRequired | StagedNext | Promoted | WaitingForPromotion | Failed

  const CERT_LIFETIME := 2 * 365 * DAY

  /** X.509 times have whole seconds. */
  function Truncate(t: int): int { t / SECOND * SECOND }

  function SelfSignedCert(now: int, key: string, serial: nat): Cert {
    Cert(serial, Truncate(now + CERT_LIFETIME), key)
  }

  function SelfSignedItem(now: int, key: string, serial: nat): CertItem {
    CertItem(SelfSignedCert(now, key, serial), SelfSigned, "")
  }

  // ---------- The rotation check as a function of the slots and the faults ----------

  /** PromoteNextToActive: read next, write active, delete next; a failure leaves what was
      done before it. */
  function PromoteNext(s: Slots, faults: seq<bool>): (Slots, bool) {
    if NextFault(faults) || s.next.None? then (s, false)
    else if NextFault(LaterFaults(faults)) then (s, false)
    else if NextFault(LaterFaults(LaterFaults(faults))) then (s.(active := s.next), false)
    else (s.(active := s.next, next := None), true)
  }

  /** The time to an expiry that could not be read: Go's shortest duration. */
  const UNKNOWN_REMAINING: int := -0x8000_0000_0000_0000

  /** The state after a check, what it did, and the lifetime it reports. */
  datatype Checked = Checked(slots: Slots, action: Action, remaining: int)

  /** Inside the window, past the guard for CA-issued certificates. */
  function Rotate(s: Slots, faults: seq<bool>, remaining: int, now: int, cfg: Config, key: string, serial: nat): Checked
  {
    var later := LaterFaults(faults);
    if NextFault(faults) then Checked(s, Failed, remaining)
    else if s.next.None? then
      if NextFault(later) then Checked(s, Failed, remaining)
      else Checked(s.(next := Some(SelfSignedItem(now, key, serial))), StagedNext, remaining)
    else if remaining <= (cfg.rotationWindowDays - cfg.promotionDelayDays) * DAY then
      var (promoted, ok) := PromoteNext(s, later);
      var reread := LaterFaults(LaterFaults(LaterFaults(later)));
      if !ok then Checked(promoted, Failed, remaining)
      else Checked(promoted, Promoted,
                   if NextFault(reread) then UNKNOWN_REMAINING else s.next.value.cert.notAfter - now)
    else Checked(s, WaitingForPromotion, remaining)
  }

  function Check(s: Slots, faults: seq<bool>, now: int, cfg: Config, key: string, serial: nat): Checked {
    if NextFault(faults) then Checked(s, Failed, 0)
    else match s.active
      case None =>
        var first := SelfSignedItem(now, key, serial);
        if NextFault(LaterFaults(faults)) then Checked(s, Failed, 0)
        else Checked(s.(active := Some(first)), GeneratedInitial, first.cert.notAfter - now)
      case Some(active) =>
        var remaining := active.cert.notAfter - now;
        if remaining > cfg.rotationWindowDays * DAY then Checked(s, NoAction, remaining)
        else if !NextFault(LaterFaults(faults)) && active.source.CAIssued? then Checked(s, ImportRequired, remaining)
        else Rotate(s, LaterFaults(LaterFaults(faults)), remaining, now, cfg, key, serial)
  }

  function PromoteBackup(s: Slots, faults: seq<bool>): (Slots, bool) {
    if NextFault(faults) || s.backup.None? then (s, false)
    else if NextFault(LaterFaults(faults)) then (s, false)
    else if NextFault(LaterFaults(LaterFaults(faults))) then (s.(active := s.backup), false)
    else (s.(active := s.backup, backup := None), true)
  }

  // ---------- Keys ----------

  /** The configured key ids; no dedicated backup key when `backup` is empty. */
  datatype Keys = Keys(primary: string, backup: string)

  datatype Role = ActiveRole | BackupRole | OtherRole(name: string)

  /** The key a role's certificates must wrap. */
  function SignerForRole(keys: Keys, role: Role): Option<string> {
    match role
    case ActiveRole => Some(keys.primary)
    case BackupRole => Some(if keys.backup != "" then keys.backup else keys.primary)
    case OtherRole(_) => None
  }

  function Import(s: Slots, faults: seq<bool>, keys: Keys, role: Role, leaf: Cert): (Slots, bool) {
    match SignerForRole(keys, role)
    case None => (s, false)
    case Some(key) =>
      if leaf.key != key || NextFault(faults) then (s, false)
      else
        var item := Some(CertItem(leaf, CAIssued, key));
        (if role.ActiveRole? then s.(active := item) else s.(backup := item), true)
  }

  class CertStore {
    var active: Option<CertItem>
    var next: Option<CertItem>
    var backup: Option<CertItem>
    var faults: seq<bool>

    constructor ()
      ensures Rows() == Slots(None, None, None) && faults == []
    {
      active, next, backup, faults := None, None, None, [];
    }

    function Rows(): Slots
      reads this
    {
      Slots(active, next, backup)
    }

    /** Takes the next entry of the fault schedule. */
    method Call() returns (failed: bool)
      modifies this`faults
      ensures failed == NextFault(old(faults)) && faults == LaterFaults(old(faults))
    {
      failed := NextFault(faults);
      faults := LaterFaults(faults);
    }

    method PromoteNextToActive() returns (ok: bool)
      modifies this
      ensures (Rows(), ok) == PromoteNext(old(Rows()), old(faults))
      ensures ok
              <==> old(next).Some? && !FaultAt(old(faults), 0) && !FaultAt(old(faults), 1) && !FaultAt(old(faults), 2)
      ensures ok ==> active == old(next) && next.None?
      ensures !ok ==> next == old(next)
      ensures !ok ==> active == if old(next).Some? && !FaultAt(old(faults), 0) && !FaultAt(old(faults), 1)
                                then old(next) else old(active)
      ensures backup == old(backup)
      ensures ok ==> faults == LaterFaults(LaterFaults(LaterFaults(old(faults))))
    {
      var readFailed := Call();
      if readFailed || next.None? { return false; }
      var writeFailed := Call();
      if writeFailed { return false; }
      active := next;
      var deleteFailed := Call();
      if deleteFailed { return false; }
      next := None;
      return true;
    }

    method PromoteBackupToActive() returns (ok: bool)
      modifies this
      ensures (Rows(), ok) == PromoteBackup(old(Rows()), old(faults))
      ensures ok
              <==> old(backup).Some? && !FaultAt(old(faults), 0) && !FaultAt(old(faults), 1) && !FaultAt(old(faults), 2)
      ensures ok ==> active == old(backup) && backup.None?
      ensures !ok ==> backup == old(backup)
      ensures !ok ==> active == if old(backup).Some? && !FaultAt(old(faults), 0) && !FaultAt(old(faults), 1)
                                then old(backup) else old(active)
      ensures next == old(next)
    {
      var readFailed := Call();
      if readFailed || backup.None? { return false; }
      var writeFailed := Call();
      if writeFailed { return false; }
      active := backup;
      var deleteFailed := Call();
      if deleteFailed { return false; }
      backup := None;
      return true;
    }

    method CheckCertRotation(now: int, cfg: Config, key: string, serial: nat) returns (r: Action, remaining: int)
      modifies this
      ensures Checked(Rows(), r, remaining) == Check(old(Rows()), old(faults), now, cfg, key, serial)
      // Without an active certificate.
      ensures FaultAt(old(faults), 0) ==> r == Failed && remaining == 0 && Rows() == old(Rows())
      ensures old(active).None? && !FaultAt(old(faults), 0) ==>
                if FaultAt(old(faults), 1) then r == Failed && remaining == 0 && Rows() == old(Rows())
                else && r == GeneratedInitial && active.Some? && active.value.source == SelfSigned
                     && active.value.cert.key == key && active.value.cert.serial == serial
                     && now + 730 * DAY - SECOND < active.value.cert.notAfter <= now + 730 * DAY
                     && remaining == active.value.cert.notAfter - now && next == old(next) && backup == old(backup)
      // With one: when nothing is due, and when it is CA-issued and its record could be read.
      ensures old(active).Some? && !FaultAt(old(faults), 0) ==>
                var left := old(active).value.cert.notAfter - now;
                && (r == NoAction <==> left > cfg.rotationWindowDays * DAY)
                && (r == ImportRequired <==> && left <= cfg.rotationWindowDays * DAY && !FaultAt(old(faults), 1)
                                             && old(active).value.source == CAIssued)
                && (r != Promoted ==> remaining == left)
                && (r in {NoAction, ImportRequired, WaitingForPromotion} ==> Rows() == old(Rows()))
      // Past the guard: a successor is staged when there is none, and promoted when it is time.
      ensures old(active).Some? && !FaultAt(old(faults), 0) && r !in {NoAction, ImportRequired} ==>
                var left := old(active).value.cert.notAfter - now;
                && (r == StagedNext <==> !FaultAt(old(faults), 2) && old(next).None? && !FaultAt(old(faults), 3))
                && (r == StagedNext ==>
                      && active == old(active) && backup == old(backup) && next.Some?
                      && next.value.source == SelfSigned && next.value.cert.key == key
                      && next.value.cert.serial == serial
                      && now + 730 * DAY - SECOND < next.value.cert.notAfter <= now + 730 * DAY)
                && (r == WaitingForPromotion <==>
                      && !FaultAt(old(faults), 2) && old(next).Some?
                      && left > (cfg.rotationWindowDays - cfg.promotionDelayDays) * DAY)
                && (r == Promoted <==>
                      && !FaultAt(old(faults), 2) && old(next).Some?
                      && left <= (cfg.rotationWindowDays - cfg.promotionDelayDays) * DAY
                      && !FaultAt(old(faults), 3) && !FaultAt(old(faults), 4) && !FaultAt(old(faults), 5))
                && (r == Promoted ==> active == old(next) && next.None? && backup == old(backup))
                && (r == Promoted && !FaultAt(old(faults), 6) ==> remaining == old(next).value.cert.notAfter - now)
                && (r == Failed ==>
                      && next == old(next) && backup == old(backup)
                      && active == if && !FaultAt(old(faults), 2) && old(next).Some?
                                      && !FaultAt(old(faults), 3) && !FaultAt(old(faults), 4)
                                   then old(next) else old(active))
    {
      var expiryFailed := Call();
      if expiryFailed { return Failed, 0; }
      if active.None? {
        var cert := SelfSignedCert(now, key, serial);
        var writeFailed := Call();
        if writeFailed { return Failed, 0; }
        active := Some(CertItem(cert, SelfSigned, ""));
        return GeneratedInitial, cert.notAfter - now;
      }
      remaining := active.value.cert.notAfter - now;
      if remaining > cfg.rotationWindowDays * DAY { return NoAction, remaining; }
      var recordFailed := Call();
      if !recordFailed && active.value.source == CAIssued { return ImportRequired, remaining; }
      var nextFailed := Call();
      if nextFailed { return Failed, remaining; }
      if next.None? {
        var writeFailed := Call();
        if writeFailed { return Failed, remaining; }
        next := Some(CertItem(SelfSignedCert(now, key, serial), SelfSigned, ""));
        return StagedNext, remaining;
      }
      if remaining <= (cfg.rotationWindowDays - cfg.promotionDelayDays) * DAY {
        var ok := PromoteNextToActive();
        if !ok { return Failed, remaining; }
        var rereadFailed := Call();
        return Promoted, if rereadFailed then UNKNOWN_REMAINING else active.value.cert.notAfter - now;
      }
      return WaitingForPromotion, remaining;
    }

    /** CertManager.Import: the leaf must wrap the key of its role. */
    method ImportCert(keys: Keys, role: Role, leaf: Cert) returns (ok: bool)
      modifies this
      ensures (Rows(), ok) == Import(old(Rows()), old(faults), keys, role, leaf)
      ensures ok <==> && !FaultAt(old(faults), 0)
                      && ((role == ActiveRole && leaf.key == keys.primary)
                          || (role == BackupRole && leaf.key == if keys.backup != "" then keys.backup
                              else keys.primary))
      ensures ok && role == ActiveRole ==> active == Some(CertItem(leaf, CAIssued, leaf.key)) && backup == old(backup)
      ensures ok && role == BackupRole ==> backup == Some(CertItem(leaf, CAIssued, leaf.key)) && active == old(active)
      ensures next == old(next) && (!ok ==> Rows() == old(Rows()))
    {
      var key := SignerForRole(keys, role);
      if key.None? || leaf.key != key.value { return false; }
      var writeFailed := Call();
      if writeFailed { return false; }
      var item := CertItem(leaf, CAIssued, key.value);
      match role {
        case ActiveRole => active := Some(item);
        case BackupRole => backup := Some(item);
        case OtherRole(_) =>
      }
      return true;
    }

    /** The certificate of a slot, unless reading it fails. */
    method Read(slot: Option<CertItem>) returns (c: Option<Cert>)
      modifies this`faults
      ensures faults == LaterFaults(old(faults))
      ensures c == if NextFault(old(faults)) || slot.None? then None else Some(slot.value.cert)
    {
      var failed := Call();
      c := if failed || slot.None? then None else Some(slot.value.cert);
    }

    /** GetAllCerts: what SAML metadata publishes, each serial once, the active one first. */
    method GetAllCerts() returns (certs: seq<Cert>)
      modifies this`faults
      ensures forall i, j :: 0 <= i < j < |certs| ==> certs[i].serial != certs[j].serial
      ensures forall c :: c in certs ==> c in Published(Rows())
      ensures active.Some? && !FaultAt(old(faults), 0) ==> certs != [] && certs[0] == active.value.cert
      ensures next.Some? && !FaultAt(old(faults), 1) ==> HasSerial(certs, next.value.cert.serial)
      ensures backup.Some? && !FaultAt(old(faults), 2) ==> HasSerial(certs, backup.value.cert.serial)
    {
      hide NextFault, LaterFaults, FaultAt, HasSerial;
      FirstThree(faults);
      var a := Read(active);
      certs := AddCert([], a);
      var n := Read(next);
      certs := AddCert(certs, n);
      var b := Read(backup);
      certs := AddCert(certs, b);
    }
  }

  ghost predicate HasSerial(certs: seq<Cert>, serial: nat) {
    exists c :: c in certs && c.serial == serial
  }

  lemma {:induction false} FirstThree(faults: seq<bool>)
    ensures FaultAt(faults, 0) == NextFault(faults) && FaultAt(faults, 1) == NextFault(LaterFaults(faults))
    ensures FaultAt(faults, 2) == NextFault(LaterFaults(LaterFaults(faults)))
  {
  }

  /** Appends a certificate unless its serial is already listed. */
  method AddCert(certs: seq<Cert>, c: Option<Cert>) returns (r: seq<Cert>)
    requires forall i, j :: 0 <= i < j < |certs| ==> certs[i].serial != certs[j].serial
    ensures forall i, j :: 0 <= i < j < |r| ==> r[i].serial != r[j].serial
    ensures certs <= r && forall d :: d in r ==> d in certs || c == Some(d)
    ensures forall d :: d in certs ==> d in r
    ensures c.Some? ==> HasSerial(r, c.value.serial)
    ensures forall n :: HasSerial(certs, n) ==> HasSerial(r, n)
    ensures c.Some? && certs == [] ==> r == [c.value]
  {
    if c.None? { return certs; }
    for i := 0 to |certs|
      invariant forall j :: 0 <= j < i ==> certs[j].serial != c.value.serial
    {
      if certs[i].serial == c.value.serial {
        assert certs[i] in certs;
        return certs;
      }
    }
    r := certs + [c.value];
    assert c.value in r;
  }

  /** Every certificate a relying party is told about. */
  function Published(s: Slots): set<Cert> {
    (if s.active.Some? then {s.active.value.cert} else {}) + (if s.next.Some? then {s.next.value.cert} else {})
    + (if s.backup.Some? then {s.backup.value.cert} else {})
  }

  // ---------- Every write to the slots ----------

  datatype Event =
    | RunCheck(now: int, cfg: Config, serial: nat)
    | AdminImport(role: Role, leaf: Cert)
    | AdminPromote

  /** One event under one schedule of faults; checks sign with the primary key. */
  function Apply(s: Slots, keys: Keys, e: Event, faults: seq<bool>): Slots {
    match e
    case RunCheck(now, cfg, serial) => Check(s, faults, now, cfg, keys.primary, serial).slots
    case AdminImport(role, leaf) => Import(s, faults, keys, role, leaf).0
    case AdminPromote => PromoteBackup(s, faults).0
  }

  function Exec(s: Slots, keys: Keys, events: seq<(Event, seq<bool>)>): Slots
    decreases |events|
  {
    if events == [] then s else Exec(Apply(s, keys, events[0].0, events[0].1), keys, events[1..])
  }

  function KeyOf(item: CertItem, keys: Keys): string {
    if item.kmsKeyID != "" then item.kmsKeyID else keys.primary
  }

  predicate ItemKeyOk(item: Option<CertItem>, keys: Keys) {
    item.Some? ==>
      item.value.cert.key == KeyOf(item.value, keys) && KeyOf(item.value, keys) in {keys.primary, keys.backup}
  }

  predicate KeysOk(s: Slots, keys: Keys) {
    ItemKeyOk(s.active, keys) && ItemKeyOk(s.next, keys) && ItemKeyOk(s.backup, keys)
  }

  lemma {:induction false} EventKeepsKeys(s: Slots, keys: Keys, e: Event, faults: seq<bool>)
    requires KeysOk(s, keys)
    ensures KeysOk(Apply(s, keys, e, faults), keys)
  {
  }

  /** Whatever the order of checks, imports and promotions, and whichever calls fail, every
      slot's certificate wraps the key its record names. */
  lemma {:induction false} RunKeepsKeys(s: Slots, keys: Keys, events: seq<(Event, seq<bool>)>)
    requires KeysOk(s, keys)
    ensures KeysOk(Exec(s, keys, events), keys)
    decreases |events|
  {
    hide KeysOk, Apply;
    if events == [] {
    } else {
      EventKeepsKeys(s, keys, events[0].0, events[0].1);
      RunKeepsKeys(Apply(s, keys, events[0].0, events[0].1), keys, events[1..]);
    }
  }

  /** SelectActiveSigner: the key to sign with and the certificate sent along. */
  function SelectActiveSigner(s: Slots, keys: Keys): Option<(string, Cert)> {
    if s.active.None? then None else Some((KeyOf(s.active.value, keys), s.active.value.cert))
  }

  /** From empty slots, in every run, the selected signer is the active certificate's own. */
  lemma {:induction false} SelectedSignerMatches(keys: Keys, events: seq<(Event, seq<bool>)>)
    ensures var s := Exec(Slots(None, None, None), keys, events);
            SelectActiveSigner(s, keys).Some? ==>
              SelectActiveSigner(s, keys).value.0 == SelectActiveSigner(s, keys).value.1.key
              && SelectActiveSigner(s, keys).value.0 in {keys.primary, keys.backup}
  {
    RunKeepsKeys(Slots(None, None, None), keys, events);
  }

  /** A leaf of the backup role's key, imported as the standby and then promoted, signs from
      then on, when no call fails. */
  lemma {:induction false} StandbyTakesOver(s: Slots, keys: Keys, leaf: Cert, faults: seq<bool>, later: seq<bool>)
    requires FaultFree(faults) && FaultFree(later) && leaf.key == if keys.backup != "" then keys.backup
             else keys.primary
    ensures var s' := Exec(s, keys, [(AdminImport(BackupRole, leaf), faults), (AdminPromote, later)]);
            SelectActiveSigner(s', keys) == Some((leaf.key, leaf)) && s'.backup.None? && s'.next == s.next
  {
    var events := [(AdminImport(BackupRole, leaf), faults), (AdminPromote, later)];
    var s1 := Apply(s, keys, events[0].0, faults);
    var s2 := Apply(s1, keys, events[1].0, later);
    assert events[1..] == [events[1]] && events[1..][1..] == [];
    assert Exec(s2, keys, []) == s2;
    assert Exec(s1, keys, events[1..]) == s2;
  }

  /** An imported certificate in the active slot is never replaced by checks no call of which
      fails, whatever is staged and however late it is. */
  lemma {:induction false} ImportedIsKept(s: Slots, keys: Keys, leaf: Cert, faults: seq<bool>,
                                          checks: seq<(Event, seq<bool>)>)
    requires FaultFree(faults) && leaf.key == keys.primary
    requires forall i :: 0 <= i < |checks| ==> checks[i].0.RunCheck? && FaultFree(checks[i].1)
    ensures Exec(s, keys, [(AdminImport(ActiveRole, leaf), faults)] + checks)
            == s.(active := Some(CertItem(leaf, CAIssued, keys.primary)))
  {
    var first := (AdminImport(ActiveRole, leaf), faults);
    assert ([first] + checks)[0] == first && ([first] + checks)[1..] == checks;
    ChecksKeepCAIssued(Apply(s, keys, first.0, faults), keys, checks);
  }

  lemma {:induction false} ChecksKeepCAIssued(s: Slots, keys: Keys, checks: seq<(Event, seq<bool>)>)
    requires s.active.Some? && s.active.value.source.CAIssued?
    requires forall i :: 0 <= i < |checks| ==> checks[i].0.RunCheck? && FaultFree(checks[i].1)
    ensures Exec(s, keys, checks) == s
    decreases |checks|
  {
    if checks == [] {
    } else {
      var e := checks[0].0;
      FaultFreeCheckKeepsCAIssued(s, checks[0].1, e.now, e.cfg, keys.primary, e.serial);
      ChecksKeepCAIssued(s, keys, checks[1..]);
    }
  }

  /** The keys the JWKS endpoint serves: the active one, then the other configured keys
      whose public half could be loaded. */
  method AddBackupVerificationKey(keys: Keys, activeKeyID: string, loadable: string -> bool)
    returns (served: seq<string>)
    ensures forall k ::
              k in served <==> k == activeKeyID || (k in {keys.primary, keys.backup} && k != "" && loadable(k))
    ensures |served| > 0 && served[0] == activeKeyID
  {
    served := [activeKeyID];
    var candidates := [keys.primary, keys.backup];
    for i := 0 to 2
      invariant |served| > 0 && served[0] == activeKeyID
      invariant forall k :: k in served <==> k == activeKeyID || (k in candidates[..i] && k != "" && loadable(k))
    {
      assert candidates[..i + 1] == candidates[..i] + [candidates[i]];
      var keyID := candidates[i];
      if keyID == "" || keyID == activeKeyID { continue; }
      if !loadable(keyID) { continue; }
      served := served + [keyID];
    }
    assert candidates[..2] == candidates;
  }

  /** Whichever of the two configured keys is active, the same keys are served, so a
      promotion invalidates no issued token. */
  lemma {:induction false} ServedKeysUnchangedByPromotion(keys: Keys, before: seq<string>, after: seq<string>,
                                                          a: string, b: string, loadable: string -> bool)
    requires a in {keys.primary, keys.backup} && b in {keys.primary, keys.backup} && a != "" && b != "" && loadable(a)
             && loadable(b)
    requires forall k :: k in before <==> k == a || (k in {keys.primary, keys.backup} && k != "" && loadable(k))
    requires forall k :: k in after <==> k == b || (k in {keys.primary, keys.backup} && k != "" && loadable(k))
    ensures forall k :: k in before <==> k in after
  {
    forall k ensures k in before <==> k in after {
      assert k in before <==> (k in {keys.primary, keys.backup} && k != "" && loadable(k));
    }
  }

  // ---------- What may replace the active certificate ----------

  /** A relying party already trusts every certificate that becomes active, except the very
      first one and one an administrator imports straight into the active slot. */
  lemma {:induction false} NewActiveWasPublished(s: Slots, keys: Keys, e: Event, faults: seq<bool>)
    requires Apply(s, keys, e, faults).active.Some?
    ensures Apply(s, keys, e, faults).active.value.cert in Published(s)
            || (e.RunCheck? && s.active.None?) || (e.AdminImport? && e.role.ActiveRole?)
  {
  }

  /** Exactly when a check replaces a CA-issued active certificate: the record read it is
      guarded by fails, everything else works, a different certificate is staged, and the
      promotion threshold has passed. The guard is skipped on a failed read. */
  lemma {:induction false} CheckReplacesCAIssuedIff(s: Slots, faults: seq<bool>, now: int, cfg: Config, key: string,
                                                    serial: nat)
    requires s.active.Some? && s.active.value.source.CAIssued?
    ensures var f1 := LaterFaults(faults); var f2 := LaterFaults(f1); var f3 := LaterFaults(f2);
            var f4 := LaterFaults(f3);
            var remaining := s.active.value.cert.notAfter - now;
            Check(s, faults, now, cfg, key, serial).slots.active != s.active
            <==> && !NextFault(faults) && NextFault(f1) && !NextFault(f2) && !NextFault(f3) && !NextFault(f4)
                 && s.next.Some? && s.next != s.active
                 && remaining <= cfg.rotationWindowDays * DAY
                 && remaining <= (cfg.rotationWindowDays - cfg.promotionDelayDays) * DAY
  {
  }

  /** So a fault-free check never does. */
  lemma {:induction false} FaultFreeCheckKeepsCAIssued(s: Slots, faults: seq<bool>, now: int, cfg: Config, key: string,
                                                       serial: nat)
    requires s.active.Some? && s.active.value.source.CAIssued? && FaultFree(faults)
    ensures Check(s, faults, now, cfg, key, serial).slots == s
    ensures Check(s, faults, now, cfg, key, serial).action in {NoAction, ImportRequired}
  {
  }

  /** The active certificate is staged as its own successor. */
  predicate StaleNext(s: Slots) { s.active.Some? && s.next == s.active }

  /** Exactly when a check leaves the active certificate staged as its own successor: it was
      due for promotion, and of the calls that promote only the delete failed. The serial it
      may generate is fresh. */
  lemma {:induction false} CheckLeavesStaleNextIff(s: Slots, faults: seq<bool>, now: int, cfg: Config, key: string,
                                                   serial: nat)
    requires !StaleNext(s)
    requires (s.active.Some? ==> s.active.value.cert.serial != serial)
             && (s.next.Some? ==> s.next.value.cert.serial != serial)
    ensures var f1 := LaterFaults(faults); var f2 := LaterFaults(f1); var f3 := LaterFaults(f2);
            var f4 := LaterFaults(f3); var f5 := LaterFaults(f4);
            StaleNext(Check(s, faults, now, cfg, key, serial).slots)
            <==> && s.active.Some? && s.next.Some?
                 && var remaining := s.active.value.cert.notAfter - now;
                 && !NextFault(faults) && (NextFault(f1) || s.active.value.source.SelfSigned?)
                 && !NextFault(f2) && !NextFault(f3) && !NextFault(f4) && NextFault(f5)
                 && remaining <= cfg.rotationWindowDays * DAY
                 && remaining <= (cfg.rotationWindowDays - cfg.promotionDelayDays) * DAY
  {
  }

  /** What a fault-free check makes of it: nothing until the certificate is due for promotion
      itself; then it replaces itself, and staging starts from there. */
  lemma {:induction false} StaleNextPromotesItself(s: Slots, now: int, cfg: Config, key: string, serial: nat)
    requires StaleNext(s) && s.active.value.source.SelfSigned? && 0 <= cfg.promotionDelayDays
    ensures var due := s.active.value.cert.notAfter - now <= (cfg.rotationWindowDays - cfg.promotionDelayDays) * DAY;
            Check(s, [], now, cfg, key, serial).slots == if due then s.(next := None) else s
  {
  }
}
