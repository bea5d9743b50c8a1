/** The display state of a validated package: which evaluation times show a
    verification record as verified, revoked, superseded or expired. */
module DisplayState {
  import opened Basics

  datatype Kind = EvaluationPackage | VerificationRecord

  datatype State =
    | Evaluated | EvaluationOpen | EvaluationFailed | ConformanceFailed
    | StatusUnknown | Expired | Verified | Revoked | Superseded

  datatype Display = Error | Show(state: State)

  /** A signed status document, as decoded. */
  datatype Status = Status(
    format: int, recordId: string, authority: string, state: string,
    issuedAt: string, nextUpdate: string, effectiveAt: string, reason: string, replacement: string)

  /** `instant` reads an RFC 3339 time as nanoseconds since the zero time; `present`
      holds of text that is not all white space. */
  datatype Reader = Reader(instant: string -> Option<int>, present: string -> bool)

  /** The parts of an accepted manifest the display state depends on. */
  datatype Manifest = Manifest(
    kind: Kind, id: string, authority: string, evaluationExit: int, conformanceExit: int, expiresAt: string)

  /** What the consumer supplies. The status is absent, or a document whose
      signature did or did not verify under a trusted key. Evaluation time zero is
      the zero time and counts as not supplied. */
  datatype Supplied = Absent | Document(status: Status, authentic: bool)

  datatype Options = Options(evaluationTime: int, maxStatusAge: int, supplied: Supplied)

  // ----- Status documents -----

  function SchemaOK(rd: Reader, s: Status): bool {
    && s.format == 1
    && rd.instant(s.issuedAt).Some?
    && if s.state == "current" then
         && rd.present(s.nextUpdate) && rd.instant(s.nextUpdate).Some?
         && rd.instant(s.nextUpdate).value > rd.instant(s.issuedAt).value
       else if s.state == "revoked" then
         rd.present(s.reason) && rd.present(s.effectiveAt) && rd.instant(s.effectiveAt).Some?
       else if s.state == "superseded" then
         rd.present(s.reason) && rd.present(s.replacement) && rd.present(s.effectiveAt) && rd.instant(s.effectiveAt).Some?
       else false
  }

  /** The document is well formed, about this record, and signed. */
  predicate Usable(rd: Reader, m: Manifest, supplied: Supplied) {
    && supplied.Document? && supplied.authentic
    && SchemaOK(rd, supplied.status)
    && supplied.status.recordId == m.id && supplied.status.authority == m.authority
  }

  // ----- What is displayed when -----

  /** A completed, conforming verification record. */
  predicate Displayable(m: Manifest) {
    m.evaluationExit == 0 && m.conformanceExit == 0 && m.kind == VerificationRecord
  }

  /** Such a record, looked at with a supplied time and a sensible age limit. */
  predicate Timed(m: Manifest, o: Options) {
    Displayable(m) && o.maxStatusAge >= 0 && o.evaluationTime != 0
  }

  predicate Unexpired(rd: Reader, m: Manifest, t: int) {
    m.expiresAt == "" || (rd.instant(m.expiresAt).Some? && t < rd.instant(m.expiresAt).value)
  }

  predicate PastExpiry(rd: Reader, m: Manifest, t: int) {
    m.expiresAt != "" && rd.instant(m.expiresAt).Some? && rd.instant(m.expiresAt).value <= t
  }

  /** From issue until the next update is due, the record expires, or the status is
      older than the consumer accepts. */
  predicate InVerifiedWindow(rd: Reader, m: Manifest, o: Options) {
    && Timed(m, o) && Usable(rd, m, o.supplied) && o.supplied.status.state == "current"
    && var s, t := o.supplied.status, o.evaluationTime;
       && rd.instant(s.issuedAt).value <= t < rd.instant(s.nextUpdate).value
       && Unexpired(rd, m, t)
       && (o.maxStatusAge > 0 ==> t < rd.instant(s.issuedAt).value + o.maxStatusAge)
  }

  /** From the later of issue and effect until expiry. */
  predicate InWithdrawnWindow(rd: Reader, m: Manifest, o: Options, state: string) {
    && Timed(m, o) && Usable(rd, m, o.supplied) && o.supplied.status.state == state && state in {"revoked", "superseded"}
    && var s, t := o.supplied.status, o.evaluationTime;
       && rd.instant(s.issuedAt).value <= t && rd.instant(s.effectiveAt).value <= t
       && Unexpired(rd, m, t)
  }

  /** Which inputs display which state; an unknown status is all the rest. */
  ghost predicate Displays(rd: Reader, m: Manifest, o: Options, d: Display) {
    && (d == Show(EvaluationOpen) <==> m.evaluationExit == 4)
    && (d == Show(EvaluationFailed) <==> m.evaluationExit != 0 && m.evaluationExit != 4)
    && (d == Show(ConformanceFailed) <==> m.evaluationExit == 0 && m.conformanceExit != 0)
    && (d == Show(Evaluated) <==> m.evaluationExit == 0 && m.conformanceExit == 0 && m.kind == EvaluationPackage)
    && (d == Error <==>
          Displayable(m) && (o.maxStatusAge < 0 || (o.evaluationTime != 0 && m.expiresAt != "" && rd.instant(m.expiresAt).None?)))
    && (d == Show(Expired) <==> Timed(m, o) && PastExpiry(rd, m, o.evaluationTime))
    && (d == Show(Verified) <==> InVerifiedWindow(rd, m, o))
    && (d == Show(Revoked) <==> InWithdrawnWindow(rd, m, o, "revoked"))
    && (d == Show(Superseded) <==> InWithdrawnWindow(rd, m, o, "superseded"))
  }

  /** The windows leave no choice. */
  lemma DisplayDetermined(rd: Reader, m: Manifest, o: Options, d: Display, e: Display)
    requires Displays(rd, m, o, d) && Displays(rd, m, o, e)
    ensures d == e
  {
    var known := if d == Show(StatusUnknown) then e else d;
    if known.Show? {
      match known.state {
        case Evaluated =>
        case EvaluationOpen =>
        case EvaluationFailed =>
        case ConformanceFailed =>
        case StatusUnknown =>
        case Expired =>
        case Verified =>
        case Revoked =>
        case Superseded =>
      }
    }
  }

  /** The decision, step by step. A status that is supplied but unusable displays
      as unknown, and every time a usable one names can be read. */
  method ShowState(rd: Reader, m: Manifest, o: Options) returns (d: Display)
    ensures Displays(rd, m, o, d)
  {
    d := Show(Evaluated);
    if m.evaluationExit != 0 {
      d := Show(if m.evaluationExit == 4 then EvaluationOpen else EvaluationFailed);
      return;
    }
    if m.conformanceExit != 0 {
      d := Show(ConformanceFailed);
      return;
    }
    if m.kind == EvaluationPackage {
      return;
    }
    if o.maxStatusAge < 0 {
      return Error;
    }
    if o.evaluationTime == 0 {
      d := Show(StatusUnknown);
      return;
    }
    if m.expiresAt != "" {
      var expires := rd.instant(m.expiresAt);
      if expires.None? {
        return Error;
      }
      if !(o.evaluationTime < expires.value) {
        d := Show(Expired);
        return;
      }
    }
    if !Usable(rd, m, o.supplied) {
      d := Show(StatusUnknown);
      return;
    }
    d := ShowStatus(rd, m, o);
  }

  method ShowStatus(rd: Reader, m: Manifest, o: Options) returns (d: Display)
    requires Timed(m, o) && Unexpired(rd, m, o.evaluationTime) && Usable(rd, m, o.supplied)
    ensures Displays(rd, m, o, d)
  {
    var s, t := o.supplied.status, o.evaluationTime;
    var issued := rd.instant(s.issuedAt).value;
    if t < issued {
      return Show(StatusUnknown);
    }
    if s.state == "current" {
      if o.maxStatusAge > 0 && !(t < issued + o.maxStatusAge) {
        return Show(StatusUnknown);
      }
      if !(t < rd.instant(s.nextUpdate).value) {
        return Show(StatusUnknown);
      }
      return Show(Verified);
    }
    if t < rd.instant(s.effectiveAt).value {
      return Show(StatusUnknown);
    }
    return Show(if s.state == "revoked" then Revoked else Superseded);
  }

  // ----- Across evaluation times -----

  function Min(a: int, b: int): int {
    if a < b then a else b
  }

  /** The first instant at which a current status no longer verifies the record. */
  function WindowEnd(rd: Reader, m: Manifest, s: Status, maxStatusAge: int): int
    requires rd.instant(s.nextUpdate).Some? && rd.instant(s.issuedAt).Some?
    requires m.expiresAt != "" ==> rd.instant(m.expiresAt).Some?
  {
    var next := rd.instant(s.nextUpdate).value;
    var limited := if maxStatusAge > 0 then Min(next, rd.instant(s.issuedAt).value + maxStatusAge) else next;
    if m.expiresAt != "" then Min(limited, rd.instant(m.expiresAt).value) else limited
  }

  /** For a fixed accepted record and current status the non-zero instants that
      display it as verified are one half-open interval. */
  lemma VerifiedInterval(rd: Reader, m: Manifest, o: Options, d: Display)
    requires Displays(rd, m, o, d) && Timed(m, o) && Usable(rd, m, o.supplied) && o.supplied.status.state == "current"
    requires m.expiresAt != "" ==> rd.instant(m.expiresAt).Some?
    ensures d == Show(Verified) <==>
              rd.instant(o.supplied.status.issuedAt).value <= o.evaluationTime < WindowEnd(rd, m, o.supplied.status, o.maxStatusAge)
  {
  }

  /** A positive maximum age only removes verified instants, a larger one removes
      fewer, and no limit removes none. */
  lemma MaximumAgeOnlyShrinks(rd: Reader, m: Manifest, o: Options, age: int, d: Display)
    requires Displays(rd, m, o, Show(Verified)) && Displays(rd, m, o.(maxStatusAge := age), d)
    requires age == 0 || (o.maxStatusAge > 0 && age >= o.maxStatusAge)
    ensures d == Show(Verified)
  {
  }

  /** Once expired, always expired, whatever status and age limit are supplied. */
  lemma ExpiredIsAbsorbing(rd: Reader, m: Manifest, o: Options, later: Options, d: Display)
    requires Displays(rd, m, o, Show(Expired)) && Displays(rd, m, later, d)
    requires later.evaluationTime >= o.evaluationTime && later.evaluationTime != 0 && later.maxStatusAge >= 0
    ensures d == Show(Expired)
  {
  }

  /** A withdrawn record stays withdrawn until it expires: under the same status no
      later instant and no age limit displays anything else. */
  lemma WithdrawalPersists(rd: Reader, m: Manifest, o: Options, later: Options, d: Display, e: Display)
    requires Displays(rd, m, o, d) && d in {Show(Revoked), Show(Superseded)} && Displays(rd, m, later, e)
    requires later.supplied == o.supplied && later.maxStatusAge >= 0
    requires later.evaluationTime >= o.evaluationTime && later.evaluationTime != 0
    ensures e == if PastExpiry(rd, m, later.evaluationTime) then Show(Expired) else d
  {
  }

  // ----- In the fields of the documents -----

  /** A consumer sees a verified record exactly when the evaluation and the
      conformance run succeeded, a time is given, and an authentic status document
      of format one for this record and authority says current and covers the time:
      issued by then, its later next update not due, the record not expired, and the
      status not older than any limit. */
  lemma VerifiedExactly(rd: Reader, m: Manifest, o: Options, d: Display)
    requires Displays(rd, m, o, d)
    ensures d == Show(Verified) <==>
              && m.kind == VerificationRecord && m.evaluationExit == 0 && m.conformanceExit == 0
              && o.maxStatusAge >= 0 && o.evaluationTime != 0
              && o.supplied.Document? && o.supplied.authentic
              && var s, t := o.supplied.status, o.evaluationTime;
                 && s.format == 1 && s.recordId == m.id && s.authority == m.authority
                 && s.state == "current" && rd.present(s.nextUpdate)
                 && rd.instant(s.issuedAt).Some? && rd.instant(s.nextUpdate).Some?
                 && rd.instant(s.issuedAt).value <= t < rd.instant(s.nextUpdate).value
                 && (m.expiresAt != "" ==> rd.instant(m.expiresAt).Some? && t < rd.instant(m.expiresAt).value)
                 && (o.maxStatusAge > 0 ==> t - rd.instant(s.issuedAt).value < o.maxStatusAge)
  {
  }

  /** The same for a withdrawal: an authentic status with a reason, and for a
      supersession a replacement, in effect and issued by then. */
  lemma WithdrawnExactly(rd: Reader, m: Manifest, o: Options, d: Display)
    requires Displays(rd, m, o, d)
    ensures d == Show(Revoked) || d == Show(Superseded) <==>
              && m.kind == VerificationRecord && m.evaluationExit == 0 && m.conformanceExit == 0
              && o.maxStatusAge >= 0 && o.evaluationTime != 0
              && o.supplied.Document? && o.supplied.authentic
              && var s, t := o.supplied.status, o.evaluationTime;
                 && s.format == 1 && s.recordId == m.id && s.authority == m.authority
                 && (s.state == "revoked" || (s.state == "superseded" && rd.present(s.replacement)))
                 && rd.present(s.reason) && rd.present(s.effectiveAt)
                 && rd.instant(s.issuedAt).Some? && rd.instant(s.effectiveAt).Some?
                 && rd.instant(s.issuedAt).value <= t && rd.instant(s.effectiveAt).value <= t
                 && (m.expiresAt != "" ==> rd.instant(m.expiresAt).Some? && t < rd.instant(m.expiresAt).value)
    ensures d == Show(Revoked) ==> o.supplied.status.state == "revoked"
    ensures d == Show(Superseded) ==> o.supplied.status.state == "superseded"
  {
  }

  /** A record is shown as expired exactly from its expiry on. */
  lemma ExpiredExactly(rd: Reader, m: Manifest, o: Options, d: Display)
    requires Displays(rd, m, o, d)
    ensures d == Show(Expired) <==>
              && m.kind == VerificationRecord && m.evaluationExit == 0 && m.conformanceExit == 0
              && o.maxStatusAge >= 0 && o.evaluationTime != 0
              && m.expiresAt != "" && rd.instant(m.expiresAt).Some? && rd.instant(m.expiresAt).value <= o.evaluationTime
  {
  }
}
