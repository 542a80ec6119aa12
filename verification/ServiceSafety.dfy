/** Safety of the tables, the stored documents and the issuance workers over every run of the service. */
module ServiceSafety {
  import opened Wrappers
  import opened CommercialSnapshot
  import opened Rows
  import opened Transactions
  import opened CellInvariants
  import opened Service
  import Guarantees
  import Issuance
  import Deliveries
  import Commands

  // ---------- the tables ----------

  ghost predicate CellOk(cfg: Config, q: QuoteId, c: Cell) { Inv(cfg, c) && c.quote.id == q }

  ghost predicate TablesOk(cfg: Config, s: System) {
    forall q <- s.cells :: CellOk(cfg, q, s.cells[q]) && NotBefore(s.cells[q], s.clock)
  }

  /** While a COMMIT is in doubt its quote is locked, so its transaction still reads the rows it read. */
  ghost predicate DoubtsOk(s: System) {
    forall q <- s.doubts :: s.doubts[q].now <= s.clock && (q in s.cells ==> NotBefore(s.cells[q], s.doubts[q].now))
  }

  lemma IssuanceKeepsNotBefore(cfg: Config, c: Cell, tx: Tx, now: nat)
    requires NotBefore(c, now)
    ensures forall op <- Apply(cfg, c, tx, now).0.operations ::
              var o := Apply(cfg, c, tx, now).0.operations[op]; o.lastAttemptAt.Some? ==> o.lastAttemptAt.value <= now
  {
    if !WritesOperations(tx) { LeavesOperationRows(cfg, c, tx, now); }
  }

  ghost predicate DeliveriesNotBefore(deliveries: map<DeliveryId, Delivery>, now: nat) {
    forall id <- deliveries :: deliveries[id].requestedAt <= now && (deliveries[id].lastAttemptAt.Some? ==> deliveries[id].lastAttemptAt.value <= now)
  }

  lemma CancelKeepsNotBefore(c: Cell, principal: Principal, request: Commands.CancelRequest, now: nat)
    requires DeliveriesNotBefore(c.deliveries, now)
    ensures DeliveriesNotBefore(Commands.CancelQuote(c, principal, request, now).0.deliveries, now)
  {
  }

  lemma DeliveryKeepsNotBefore(cfg: Config, c: Cell, tx: Tx, now: nat)
    requires DeliveriesNotBefore(c.deliveries, now)
    ensures DeliveriesNotBefore(Apply(cfg, c, tx, now).0.deliveries, now)
  {
    if tx.CancelQuote? { CancelKeepsNotBefore(c, tx.principal, tx.cancel, now); }
    else if !WritesDeliveries(tx) { LeavesDeliveryRows(cfg, c, tx, now); }
  }

  lemma IdStays(cfg: Config, c: Cell, tx: Tx, now: nat)
    ensures Apply(cfg, c, tx, now).0.quote.id == c.quote.id
  {
    if !tx.UpdateDraft? && !tx.IssueDraft? { SnapshotStays(cfg, c, tx, now); }
  }

  /** One transaction keeps the rows of its quote valid and leaves every other quote alone. */
  lemma TransactOk(cfg: Config, cells: map<QuoteId, Cell>, q: QuoteId, change: Change, now: nat)
    requires q in cells ==> CellOk(cfg, q, cells[q]) && NotBefore(cells[q], now)
    ensures var after := Transact(cfg, cells, q, change, now).0;
            && (q in after ==> CellOk(cfg, q, after[q]) && NotBefore(after[q], now))
            && (q in cells ==> q in after)
            && (forall q2 | q2 != q :: (q2 in after <==> q2 in cells) && (q2 in cells ==> after[q2] == cells[q2]))
  {
    match change
    case Existing(tx) =>
      if q in cells {
        KeepsInv(cfg, cells[q], tx, now);
        IdStays(cfg, cells[q], tx, now);
        IssuanceKeepsNotBefore(cfg, cells[q], tx, now);
        DeliveryKeepsNotBefore(cfg, cells[q], tx, now);
      }
    case NewDraft(creator, content) =>
      if ValidCommercial(content) { DraftsStartValid(cfg, q, creator, content); }
    case NewIssue(creator, content, terms) =>
      if Commands.CreateAndIssue(cfg, q, creator, content, terms).Success? {
        AcceptedQuotesStartValid(cfg, q, creator, content, terms);
      }
  }

  lemma ObserveLeavesTables(s: System, step: Step, x: Submission, reply: Reply)
    ensures var after := Observe(s, step, x, reply);
            && after.cells == s.cells && after.doubts == s.doubts && after.clock == s.clock
            && after.artifacts == s.artifacts && after.calls == s.calls
  {
  }

  lemma MailLocalIsLocal(cfg: Config, s: System, step: Step)
    ensures var after := MailLocal(cfg, s, step);
            && after.cells == s.cells && after.doubts == s.doubts && after.clock == s.clock
            && after.issuers == s.issuers && after.artifacts == s.artifacts
  {
  }

  lemma IssuerLocalIsLocal(cfg: Config, s: System, step: Step)
    ensures var after := IssuerLocal(cfg, s, step);
            && after.cells == s.cells && after.doubts == s.doubts && after.clock == s.clock
            && after.mailers == s.mailers && after.calls == s.calls
  {
  }

  lemma LocalLeavesTables(cfg: Config, s: System, step: Step)
    requires !step.Resolve?
    ensures var after := Local(cfg, s, step);
            after.cells == s.cells && after.doubts == s.doubts && s.clock <= after.clock
  {
    if OfMailer(step) { MailLocalIsLocal(cfg, s, step); } else { IssuerLocalIsLocal(cfg, s, step); }
  }

  function Undoubted(s: System, q: QuoteId): System { s.(doubts := s.doubts - {q}) }

  lemma TransactionKeepsTables(cfg: Config, s: System, q: QuoteId, change: Change, now: nat)
    requires TablesOk(cfg, s) && DoubtsOk(s) && now <= s.clock
    requires q in s.cells ==> NotBefore(s.cells[q], now)
    ensures var after := Undoubted(s, q).(cells := Transact(cfg, s.cells, q, change, now).0);
            TablesOk(cfg, after) && DoubtsOk(after)
  {
    var after := Undoubted(s, q).(cells := Transact(cfg, s.cells, q, change, now).0);
    TransactOk(cfg, s.cells, q, change, now);
    forall p <- after.cells ensures CellOk(cfg, p, after.cells[p]) && NotBefore(after.cells[p], s.clock) {
      if p == q { LaterIsNotBefore(after.cells[p], now, s.clock); }
    }
  }

  lemma LaterIsNotBefore(c: Cell, now: nat, later: nat)
    requires NotBefore(c, now) && now <= later
    ensures NotBefore(c, later)
  {
  }

  lemma TablesCarryOver(cfg: Config, s: System, after: System)
    requires TablesOk(cfg, s) && DoubtsOk(s)
    requires after.cells == s.cells && after.doubts == s.doubts && s.clock <= after.clock
    ensures TablesOk(cfg, after) && DoubtsOk(after)
  {
    forall p <- after.cells ensures CellOk(cfg, p, after.cells[p]) && NotBefore(after.cells[p], after.clock) {
      LaterIsNotBefore(after.cells[p], s.clock, after.clock);
    }
  }

  lemma DoubtKeepsDoubtsOk(cfg: Config, s: System, q: QuoteId, change: Change)
    requires DoubtsOk(s)
    requires q in s.cells ==> NotBefore(s.cells[q], s.clock)
    ensures DoubtsOk(s.(doubts := s.doubts[q := Doubt(change, s.clock)]))
  {
  }

  lemma SubmissionKeepsTables(cfg: Config, s: System, x: Submission)
    requires TablesOk(cfg, s) && DoubtsOk(s) && x.quote !in s.doubts
    ensures TablesOk(cfg, Commit(cfg, s, x).0) && DoubtsOk(Commit(cfg, s, x).0)
  {
    match x.ending
    case UnansweredLost =>
    case UnansweredPending =>
      DoubtKeepsDoubtsOk(cfg, s, x.quote, x.change);
      assert Commit(cfg, s, x).0.cells == s.cells && Commit(cfg, s, x).0.clock == s.clock;
    case _ =>
      assert Undoubted(s, x.quote) == s by { assert s.doubts - {x.quote} == s.doubts; }
      TransactionKeepsTables(cfg, s, x.quote, x.change, s.clock);
  }

  lemma StepKeepsTables(cfg: Config, s: System, step: Step)
    requires TablesOk(cfg, s) && DoubtsOk(s)
    ensures TablesOk(cfg, After(cfg, s, step)) && DoubtsOk(After(cfg, s, step))
  {
    var submission := Submits(s, step);
    if submission.Some? {
      var x := submission.value;
      if x.quote !in s.doubts {
        SubmissionKeepsTables(cfg, s, x);
        var (committed, reply) := Commit(cfg, s, x);
        ObserveLeavesTables(committed, step, x, reply);
        TablesCarryOver(cfg, committed, Observe(committed, step, x, reply));
      }
    } else if step.Resolve? {
      if step.quote in s.doubts {
        TransactionKeepsTables(cfg, s, step.quote, s.doubts[step.quote].change, s.doubts[step.quote].now);
      }
    } else {
      LocalLeavesTables(cfg, s, step);
      TablesCarryOver(cfg, s, Local(cfg, s, step));
    }
  }

  // ---------- stored documents and committed issuances ----------

  ghost predicate HasBytes(cfg: Config, s: System, document: Document) {
    && document.pdfSha256 in s.artifacts
    && |s.artifacts[document.pdfSha256]| == document.byteLength
    && cfg.sha256(s.artifacts[document.pdfSha256]) == document.pdfSha256
  }

  predicate Names(p: Issuer) { p.Published? || p.CommitInDoubt? || p.IssuerSucceeded? }

  ghost predicate ManifestsStored(cfg: Config, s: System) {
    forall q <- s.cells :: s.cells[q].manifest.Some? ==> HasBytes(cfg, s, s.cells[q].manifest.value.document)
  }

  ghost predicate DoubtsStored(cfg: Config, s: System) {
    forall q <- s.doubts :: s.doubts[q].change.Existing? && s.doubts[q].change.tx.CommitIssued? ==>
                              HasBytes(cfg, s, s.doubts[q].change.tx.document)
  }

  ghost predicate IssuersStored(cfg: Config, s: System) {
    forall w <- s.issuers :: Names(s.issuers[w]) ==> HasBytes(cfg, s, s.issuers[w].document)
  }

  ghost predicate IssuedBy(s: System, q: QuoteId, op: OperationId) {
    && q in s.cells
    && s.cells[q].manifest.Some?
    && s.cells[q].manifest.value.operation == op
  }

  ghost predicate SuccessesDurable(s: System) {
    forall w <- s.issuers :: s.issuers[w].IssuerSucceeded? ==> IssuedBy(s, s.issuers[w].quote, s.issuers[w].attempt.fence.operation)
  }

  ghost predicate Stored(cfg: Config, s: System) {
    ManifestsStored(cfg, s) && DoubtsStored(cfg, s) && IssuersStored(cfg, s) && SuccessesDurable(s)
  }

  ghost predicate SystemInv(cfg: Config, s: System) {
    TablesOk(cfg, s) && DoubtsOk(s) && Stored(cfg, s)
  }

  /** Only the fenced commit writes a manifest, and it writes the document it carries. */
  lemma OnlyCommitsWriteManifests(cfg: Config, c: Cell, tx: Tx, now: nat)
    ensures var (after, reply) := Apply(cfg, c, tx, now);
            && (after.manifest != c.manifest ==>
                  tx.CommitIssued? && after.manifest == Some(Manifest(tx.fence.operation, tx.document, now)))
            && (reply.Committed? ==> tx.CommitIssued? && after.manifest == Some(Manifest(tx.fence.operation, tx.document, now)))
  {
  }

  lemma NewCellsHaveNoManifest(cfg: Config, q: QuoteId, creator: Principal, content: Commercial, terms: Commands.IssueTerms)
    ensures Commands.CreateDraft(q, creator, content).Success? ==> Commands.CreateDraft(q, creator, content).value.manifest.None?
    ensures Commands.CreateAndIssue(cfg, q, creator, content, terms).Success? ==>
              Commands.CreateAndIssue(cfg, q, creator, content, terms).value.manifest.None?
  {
  }

  /** What one transaction can do to the manifest of a quote. */
  lemma ManifestMoves(cfg: Config, cells: map<QuoteId, Cell>, x: QuoteId, change: Change, now: nat, q: QuoteId)
    requires x in cells ==> Lifecycle(cells[x])
    ensures var (after, reply) := Transact(cfg, cells, x, change, now);
            && (q in after && after[q].manifest.Some? ==>
                  || (q in cells && cells[q].manifest == after[q].manifest)
                  || (q == x && change.Existing? && change.tx.CommitIssued? && change.tx.document == after[q].manifest.value.document))
            && (q in cells && cells[q].manifest.Some? ==> q in after && after[q].manifest == cells[q].manifest)
            && (reply.Committed? ==>
                  && change.Existing? && change.tx.CommitIssued? && x in after
                  && after[x].manifest == Some(Manifest(change.tx.fence.operation, change.tx.document, now)))
  {
    match change
    case Existing(tx) =>
      if x in cells {
        OnlyCommitsWriteManifests(cfg, cells[x], tx, now);
        Guarantees.EndingsAbsorb(cfg, cells[x], tx, now);
      }
    case NewDraft(creator, content) =>
      NewCellsHaveNoManifest(cfg, x, creator, content, Commands.IssueTerms(None, None, 0, 1));
    case NewIssue(creator, content, terms) =>
      NewCellsHaveNoManifest(cfg, x, creator, content, terms);
  }

  ghost predicate Keeps(s: System, after: System) {
    forall k <- s.artifacts :: k in after.artifacts && after.artifacts[k] == s.artifacts[k]
  }

  lemma TransactionKeepsManifestsStored(cfg: Config, s: System, x: QuoteId, change: Change, now: nat)
    requires TablesOk(cfg, s) && ManifestsStored(cfg, s)
    requires change.Existing? && change.tx.CommitIssued? ==> HasBytes(cfg, s, change.tx.document)
    ensures ManifestsStored(cfg, s.(cells := Transact(cfg, s.cells, x, change, now).0))
  {
    var after := s.(cells := Transact(cfg, s.cells, x, change, now).0);
    forall q <- after.cells | after.cells[q].manifest.Some? ensures HasBytes(cfg, after, after.cells[q].manifest.value.document) {
      ManifestMoves(cfg, s.cells, x, change, now, q);
    }
  }

  lemma TransactionKeepsSuccesses(cfg: Config, s: System, x: QuoteId, change: Change, now: nat)
    requires TablesOk(cfg, s) && SuccessesDurable(s)
    ensures SuccessesDurable(s.(cells := Transact(cfg, s.cells, x, change, now).0))
  {
    var after := s.(cells := Transact(cfg, s.cells, x, change, now).0);
    forall w <- s.issuers | s.issuers[w].IssuerSucceeded?
      ensures IssuedBy(after, s.issuers[w].quote, s.issuers[w].attempt.fence.operation)
    {
      ManifestMoves(cfg, s.cells, x, change, now, s.issuers[w].quote);
    }
  }

  lemma SubmittedDocumentsAreStored(cfg: Config, s: System, step: Step)
    requires IssuersStored(cfg, s)
    ensures var x := Submits(s, step);
            x.Some? && x.value.change.Existing? && x.value.change.tx.CommitIssued? ==>
              step.IssuerCommit? && HasBytes(cfg, s, x.value.change.tx.document)
  {
  }

  lemma ObserveKeepsStored(cfg: Config, s: System, committed: System, step: Step, x: Submission, reply: Reply)
    requires IssuersStored(cfg, committed) && SuccessesDurable(committed)
    requires committed.issuers == s.issuers && Submits(s, step) == Some(x)
    requires reply.Committed? && x.ending.Answered? && step.IssuerCommit? ==>
               IssuedBy(committed, x.quote, IssuerOf(s, step.worker).attempt.fence.operation)
    ensures IssuersStored(cfg, Observe(committed, step, x, reply))
    ensures SuccessesDurable(Observe(committed, step, x, reply))
  {
    ObserveLeavesTables(committed, step, x, reply);
  }

  /** An answered commit of a worker's document names the quote and operation of that worker. */
  lemma AnsweredCommitIsIssued(cfg: Config, s: System, p: Issuer)
    requires TablesOk(cfg, s) && p.Published?
    ensures var x := Submission(p.quote, Existing(CommitIssued(p.attempt.fence, p.document)), Answered);
            var (committed, reply) := Commit(cfg, s, x);
            reply.Committed? ==> IssuedBy(committed, p.quote, p.attempt.fence.operation)
  {
    ManifestMoves(cfg, s.cells, p.quote, Existing(CommitIssued(p.attempt.fence, p.document)), s.clock, p.quote);
  }

  lemma DoubtKeepsStored(cfg: Config, s: System, x: Submission)
    requires Stored(cfg, s)
    requires x.change.Existing? && x.change.tx.CommitIssued? ==> HasBytes(cfg, s, x.change.tx.document)
    ensures Stored(cfg, s.(doubts := s.doubts[x.quote := Doubt(x.change, s.clock)]))
  {
  }

  lemma TransactionKeepsStored(cfg: Config, s: System, q: QuoteId, change: Change, now: nat)
    requires TablesOk(cfg, s) && Stored(cfg, s)
    requires change.Existing? && change.tx.CommitIssued? ==> HasBytes(cfg, s, change.tx.document)
    ensures Stored(cfg, s.(cells := Transact(cfg, s.cells, q, change, now).0))
  {
    TransactionKeepsManifestsStored(cfg, s, q, change, now);
    TransactionKeepsSuccesses(cfg, s, q, change, now);
  }

  /** The state a submission commits to, before its process hears of it. */
  lemma CommitKeepsStored(cfg: Config, s: System, x: Submission)
    requires TablesOk(cfg, s) && Stored(cfg, s)
    requires x.change.Existing? && x.change.tx.CommitIssued? ==> HasBytes(cfg, s, x.change.tx.document)
    ensures Stored(cfg, Commit(cfg, s, x).0)
  {
    match x.ending
    case UnansweredLost =>
    case UnansweredPending => DoubtKeepsStored(cfg, s, x);
    case _ => TransactionKeepsStored(cfg, s, x.quote, x.change, s.clock);
  }

  lemma HeardCommitIsIssued(cfg: Config, s: System, step: Step, x: Submission)
    requires TablesOk(cfg, s) && Submits(s, step) == Some(x)
    ensures var (committed, reply) := Commit(cfg, s, x);
            reply.Committed? && x.ending.Answered? && step.IssuerCommit? ==>
              IssuedBy(committed, x.quote, IssuerOf(s, step.worker).attempt.fence.operation)
  {
    if step.IssuerCommit? && x.ending.Answered? { AnsweredCommitIsIssued(cfg, s, IssuerOf(s, step.worker)); }
  }

  lemma CommitLeavesIssuers(cfg: Config, s: System, x: Submission)
    ensures Commit(cfg, s, x).0.issuers == s.issuers
  {
  }

  lemma HeardKeepsStored(cfg: Config, s: System, committed: System, step: Step, x: Submission, reply: Reply)
    requires Stored(cfg, committed) && committed.issuers == s.issuers && Submits(s, step) == Some(x)
    requires reply.Committed? && x.ending.Answered? && step.IssuerCommit? ==>
               IssuedBy(committed, x.quote, IssuerOf(s, step.worker).attempt.fence.operation)
    ensures Stored(cfg, Observe(committed, step, x, reply))
  {
    ObserveLeavesTables(committed, step, x, reply);
    ObserveKeepsStored(cfg, s, committed, step, x, reply);
    GrownStoreKeeps(cfg, committed, Observe(committed, step, x, reply));
  }

  lemma SubmissionKeepsInv(cfg: Config, s: System, step: Step)
    requires SystemInv(cfg, s) && Submits(s, step).Some?
    ensures SystemInv(cfg, After(cfg, s, step))
  {
    StepKeepsTables(cfg, s, step);
    var x := Submits(s, step).value;
    if x.quote !in s.doubts {
      SubmittedDocumentsAreStored(cfg, s, step);
      CommitKeepsStored(cfg, s, x);
      HeardCommitIsIssued(cfg, s, step, x);
      CommitLeavesIssuers(cfg, s, x);
      HeardKeepsStored(cfg, s, Commit(cfg, s, x).0, step, x, Commit(cfg, s, x).1);
    }
  }

  lemma ResolveKeepsStored(cfg: Config, s: System, q: QuoteId, lands: bool)
    requires TablesOk(cfg, s) && Stored(cfg, s) && q in s.doubts
    ensures Stored(cfg, Local(cfg, s, Resolve(q, lands)))
  {
    TransactionKeepsManifestsStored(cfg, s, q, s.doubts[q].change, s.doubts[q].now);
    TransactionKeepsSuccesses(cfg, s, q, s.doubts[q].change, s.doubts[q].now);
  }

  lemma ResolveKeepsInv(cfg: Config, s: System, q: QuoteId, lands: bool)
    requires SystemInv(cfg, s)
    ensures SystemInv(cfg, After(cfg, s, Resolve(q, lands)))
  {
    StepKeepsTables(cfg, s, Resolve(q, lands));
    if q in s.doubts { ResolveKeepsStored(cfg, s, q, lands); }
  }

  lemma PublishKeepsStored(cfg: Config, s: System, w: Owner)
    requires IssuersStored(cfg, s) && SuccessesDurable(s)
    ensures var after := Local(cfg, s, IssuerPublish(w));
            Keeps(s, after) && IssuersStored(cfg, after) && SuccessesDurable(after)
  {
  }

  lemma ReconcileKeepsStored(cfg: Config, s: System, w: Owner)
    requires IssuersStored(cfg, s) && SuccessesDurable(s)
    ensures var after := Local(cfg, s, IssuerReconcile(w));
            Keeps(s, after) && IssuersStored(cfg, after) && SuccessesDurable(after)
  {
  }

  /** Every other local step leaves the worker naming no document it did not name before. */
  lemma OtherIssuerSteps(cfg: Config, s: System, step: Step)
    requires !step.IssuerPublish? && !step.IssuerReconcile?
    ensures var after := IssuerLocal(cfg, s, step);
            && after.artifacts == s.artifacts
            && (forall w <- after.issuers :: Names(after.issuers[w]) ==> w in s.issuers && after.issuers[w] == s.issuers[w])
  {
  }

  lemma OtherLocalSteps(cfg: Config, s: System, step: Step)
    requires !step.Resolve? && !step.IssuerPublish? && !step.IssuerReconcile?
    ensures var after := Local(cfg, s, step);
            && after.artifacts == s.artifacts
            && (forall w <- after.issuers :: Names(after.issuers[w]) ==> w in s.issuers && after.issuers[w] == s.issuers[w])
  {
    if OfMailer(step) { MailLocalIsLocal(cfg, s, step); } else if !step.Advance? { OtherIssuerSteps(cfg, s, step); }
  }

  lemma LocalKeepsStored(cfg: Config, s: System, step: Step)
    requires IssuersStored(cfg, s) && SuccessesDurable(s) && !step.Resolve?
    ensures Keeps(s, Local(cfg, s, step))
    ensures IssuersStored(cfg, Local(cfg, s, step))
    ensures SuccessesDurable(Local(cfg, s, step))
  {
    match step
    case IssuerPublish(w) => PublishKeepsStored(cfg, s, w);
    case IssuerReconcile(w) => ReconcileKeepsStored(cfg, s, w);
    case _ =>
      OtherLocalSteps(cfg, s, step);
      LocalLeavesTables(cfg, s, step);
  }

  lemma StepKeepsInv(cfg: Config, s: System, step: Step)
    requires SystemInv(cfg, s)
    ensures SystemInv(cfg, After(cfg, s, step))
  {
    if Submits(s, step).Some? { SubmissionKeepsInv(cfg, s, step); }
    else if step.Resolve? { ResolveKeepsInv(cfg, s, step.quote, step.lands); }
    else {
      StepKeepsTables(cfg, s, step);
      LocalKeepsStored(cfg, s, step);
      LocalLeavesTables(cfg, s, step);
      GrownStoreKeeps(cfg, s, Local(cfg, s, step));
    }
  }

  lemma GrownStoreKeeps(cfg: Config, s: System, after: System)
    requires ManifestsStored(cfg, s) && DoubtsStored(cfg, s) && Keeps(s, after)
    requires after.cells == s.cells && after.doubts == s.doubts
    ensures ManifestsStored(cfg, after) && DoubtsStored(cfg, after)
  {
    forall q <- after.cells | after.cells[q].manifest.Some? ensures HasBytes(cfg, after, after.cells[q].manifest.value.document) {
      assert HasBytes(cfg, s, s.cells[q].manifest.value.document);
    }
  }

  /** The invariant holds in every state of every run. */
  lemma {:induction false} RunKeepsInv(cfg: Config, s: System, steps: seq<Step>)
    requires SystemInv(cfg, s)
    ensures SystemInv(cfg, Run(cfg, s, steps))
    decreases |steps|
  {
    if steps != [] {
      StepKeepsInv(cfg, s, steps[0]);
      RunKeepsInv(cfg, After(cfg, s, steps[0]), steps[1..]);
    }
  }

  ghost predicate Reachable(cfg: Config, s: System) { exists steps :: s == Run(cfg, INITIAL, steps) }

  lemma ReachableInv(cfg: Config, s: System)
    requires Reachable(cfg, s)
    ensures SystemInv(cfg, s)
  {
    var steps :| s == Run(cfg, INITIAL, steps);
    RunKeepsInv(cfg, INITIAL, steps);
  }
}
