/**
 * A run of the service without the hypothesis of AtMostOnce: the process drops the outcome of a
 * delivery it handed to the provider, an unanswered claim makes it adopt the row it still leases,
 * and the delivery is handed over a second time.
 */
module ResendRun {
  import opened Wrappers
  import opened Arithmetic
  import opened CommercialSnapshot
  import opened Rows
  import opened Transactions
  import opened Service
  import opened ServiceSafety
  import opened AtMostOnce
  import Issuance
  import Deliveries
  import Commands

  const Q: QuoteId := 0
  const OP: OperationId := 0
  const DELIVERY: DeliveryId := 0
  const ISSUER: Owner := 0
  const MAILER: Owner := 1
  const PDF: Bytes := [37]
  const ISSUE := Issue(0, 1, 0, 1000)
  const CONTENT := Commercial([Line(0, "1", CHARGE)], None, 0)
  const CHARGE := CommercialSnapshot.Charge(1000, Exempt, None)
  const ASKED := Deliveries.DeliveryRequest(true, true, true, true)

  lemma {:induction false} RunsConcatenate(cfg: Config, s: System, steps: seq<Step>, step: Step)
    ensures Run(cfg, s, steps + [step]) == After(cfg, Run(cfg, s, steps), step)
    decreases |steps|
  {
    if steps == [] {
      assert steps + [step] == [step];
    } else {
      assert (steps + [step])[0] == steps[0] && (steps + [step])[1..] == steps[1..] + [step];
      RunsConcatenate(cfg, After(cfg, s, steps[0]), steps[1..], step);
    }
  }

  lemma ReachesNext(cfg: Config, s: System, step: Step)
    requires Reachable(cfg, s)
    ensures Reachable(cfg, After(cfg, s, step))
  {
    var steps :| s == Run(cfg, INITIAL, steps);
    RunsConcatenate(cfg, INITIAL, steps, step);
  }

  /** There is one quote, with at most one delivery. */
  ghost predicate Only(s: System) {
    s.cells.Keys == {Q} && s.cells[Q].deliveries.Keys <= {DELIVERY}
  }

  lemma ContentIsValid()
    ensures ValidCommercial(CONTENT)
  {
  }

  /** One quote accepted at instant 0, with nobody working on it yet. */
  ghost predicate AcceptedOnly(s: System) {
    && s.clock == 0 && s.doubts == map[] && s.issuers == map[] && s.mailers == map[] && s.calls == [] && s.artifacts == map[]
    && Only(s)
    && var c := s.cells[Q];
      && c.quote.issue == Some(ISSUE) && Issuance.Claimable(c, OP, 0) && c.deliveries == map[]
  }

  const TERMS := Commands.IssueTerms(None, Some(ISSUE), OP, 1000)

  lemma FirstCell(cfg: Config, content: Commercial)
    requires ValidCommercial(content) && content.lines != []
    ensures Commands.CreateAndIssue(cfg, Q, 0, content, TERMS).Success?
    ensures var c := Commands.CreateAndIssue(cfg, Q, 0, content, TERMS).value;
            c.quote.issue == Some(ISSUE) && Issuance.Claimable(c, OP, 0) && c.deliveries == map[]
  {
    OverflowIsDead(content);
  }

  lemma ServesFirst(cfg: Config, content: Commercial)
    requires Commands.CreateAndIssue(cfg, Q, 0, content, TERMS).Success?
    ensures After(cfg, INITIAL, Serve(Q, NewIssue(0, content, TERMS), Answered)) ==
            INITIAL.(cells := map[Q := Commands.CreateAndIssue(cfg, Q, 0, content, TERMS).value])
  {
  }

  lemma Accepts(cfg: Config, content: Commercial) returns (s: System)
    requires ValidCommercial(content) && content.lines != []
    ensures Reachable(cfg, s) && AcceptedOnly(s)
  {
    FirstCell(cfg, content);
    ServesFirst(cfg, content);
    assert Run(cfg, INITIAL, []) == INITIAL;
    ReachesNext(cfg, INITIAL, Serve(Q, NewIssue(0, content, TERMS), Answered));
    s := INITIAL.(cells := map[Q := Commands.CreateAndIssue(cfg, Q, 0, content, TERMS).value]);
  }

  /** The same quote, with its claimed attempt holding the rendered document. */
  ghost predicate RenderedOnly(s: System) {
    && s.clock == 0 && s.doubts == map[] && s.mailers == map[] && s.calls == [] && s.artifacts == map[]
    && IssuerOf(s, ISSUER).Rendered? && IssuerOf(s, ISSUER).quote == Q && IssuerOf(s, ISSUER).pdf == PDF
    && IssuerOf(s, ISSUER).attempt.fence.operation == OP
    && Only(s)
    && var c, p := s.cells[Q], IssuerOf(s, ISSUER);
      && c.quote.issue == Some(ISSUE) && c.deliveries == map[]
      && Issuance.FenceHolds(c, p.attempt.fence) && Issuance.IsCurrent(c, OP)
      && c.operations[OP].snapshotHash == p.attempt.snapshotHash
  }

  lemma Claims(cfg: Config, s: System) returns (after: System)
    requires Reachable(cfg, s) && AcceptedOnly(s)
    ensures Reachable(cfg, after) && after.clock == 0 && after.doubts == map[] && after.mailers == map[] && after.calls == [] && after.artifacts == map[]
    ensures IssuerOf(after, ISSUER).Holding? && Only(after) && IssuerOf(after, ISSUER).quote == Q && IssuerOf(after, ISSUER).attempt.fence.operation == OP
    ensures var c, p := after.cells[Q], IssuerOf(after, ISSUER);
            && c.quote.issue == Some(ISSUE) && c.deliveries == map[]
            && Issuance.FenceHolds(c, p.attempt.fence) && Issuance.IsCurrent(c, OP)
            && c.operations[OP].snapshotHash == p.attempt.snapshotHash
  {
    var step := IssuerClaim(ISSUER, Q, OP, false, Answered);
    ReachesNext(cfg, s, step);
    after := After(cfg, s, step);
    assert Issuance.Claim(cfg, s.cells[Q], OP, ISSUER, 0).1.Claimed?;
  }

  lemma SnapshotVerifies(cfg: Config, s: System)
    requires Reachable(cfg, s) && Q in s.cells && OP in s.cells[Q].operations
    ensures var c := s.cells[Q];
            SnapshotOf(c.quote).Some? && cfg.snapshotHash(SnapshotOf(c.quote).value) == c.operations[OP].snapshotHash
  {
    ReachableInv(cfg, s);
    assert CellOk(cfg, Q, s.cells[Q]);
  }

  lemma Renders(cfg: Config, s: System) returns (after: System)
    requires Reachable(cfg, s) && AcceptedOnly(s)
    ensures Reachable(cfg, after) && RenderedOnly(after)
  {
    var held := Claims(cfg, s);
    SnapshotVerifies(cfg, held);
    ReachesNext(cfg, held, IssuerVerify(ISSUER));
    var verified := After(cfg, held, IssuerVerify(ISSUER));
    assert verified == WithIssuer(held, ISSUER, Verified(Q, IssuerOf(held, ISSUER).attempt));
    ReachesNext(cfg, verified, IssuerRender(ISSUER, PDF));
    after := After(cfg, verified, IssuerRender(ISSUER, PDF));
    assert after == WithIssuer(verified, ISSUER, Rendered(Q, IssuerOf(held, ISSUER).attempt, PDF));
  }

  ghost predicate IssuedOnly(s: System) {
    && s.clock == 0 && s.doubts == map[] && s.mailers == map[] && s.calls == []
    && Only(s)
    && var c := s.cells[Q];
      && c.quote.issue == Some(ISSUE) && c.quote.status == Issued && c.manifest.Some? && c.deliveries == map[]
  }

  lemma Publishes(cfg: Config, s: System) returns (after: System)
    requires Reachable(cfg, s) && RenderedOnly(s)
    ensures Reachable(cfg, after) && IssuerOf(after, ISSUER).Published?
    ensures var p := IssuerOf(after, ISSUER);
            && p.quote == Q && p.attempt == IssuerOf(s, ISSUER).attempt && p.document.snapshotHash == p.attempt.snapshotHash
    ensures after.cells == s.cells && after.clock == 0 && after.doubts == map[] && after.mailers == map[] && after.calls == []
    ensures after == After(cfg, s, IssuerPublish(ISSUER))
  {
    ReachesNext(cfg, s, IssuerPublish(ISSUER));
    after := After(cfg, s, IssuerPublish(ISSUER));
  }

  lemma CommitStep(cfg: Config, s: System)
    requires s.clock == 0 && s.doubts == map[] && s.mailers == map[] && s.calls == [] && Only(s) && IssuerOf(s, ISSUER).Published?
    requires var c, p := s.cells[Q], IssuerOf(s, ISSUER);
             && p.quote == Q && Issuance.FenceHolds(c, p.attempt.fence) && Issuance.IsCurrent(c, OP) && p.attempt.fence.operation == OP
             && c.operations[OP].snapshotHash == p.document.snapshotHash && c.manifest.None?
             && c.quote.issue == Some(ISSUE) && c.deliveries == map[]
    ensures IssuedOnly(After(cfg, s, IssuerCommit(ISSUER, Answered)))
  {
  }

  lemma Issues(cfg: Config, s: System) returns (after: System)
    requires Reachable(cfg, s) && RenderedOnly(s)
    ensures Reachable(cfg, after) && IssuedOnly(after)
  {
    var published := Publishes(cfg, s);
    NothingIssuedYet(cfg, s);
    CommitStep(cfg, published);
    ReachesNext(cfg, published, IssuerCommit(ISSUER, Answered));
    after := After(cfg, published, IssuerCommit(ISSUER, Answered));
  }

  lemma NothingIssuedYet(cfg: Config, s: System)
    requires Reachable(cfg, s) && Q in s.cells && s.cells[Q].quote.status == Issuing
    ensures s.cells[Q].manifest.None?
  {
    ReachableInv(cfg, s);
    assert CellOk(cfg, Q, s.cells[Q]);
  }

  lemma Requests(cfg: Config, s: System) returns (after: System)
    requires Reachable(cfg, s) && IssuedOnly(s)
    ensures Reachable(cfg, after) && after.clock == 0 && after.doubts == map[] && after.mailers == map[] && after.calls == []
    ensures Only(after) && Offers(after.cells[Q], DELIVERY, 0)
  {
    var step := Serve(Q, Existing(RequestDelivery(DELIVERY, ASKED)), Answered);
    assert Deliveries.RequestDelivery(s.cells[Q], DELIVERY, ASKED, 0).1.DeliveryAccepted?;
    ReachesNext(cfg, s, step);
    after := After(cfg, s, step);
  }

  /** The only delivery is leased to the only mailer, who is free again. */
  ghost predicate SentOnce(s: System, f: DeliveryFence) {
    && s.doubts == map[] && MailerOf(s, MAILER) == MailerIdle
    && Only(s) && Deliveries.FenceHolds(s.cells[Q], f) && f.delivery == DELIVERY && f.owner == MAILER
    && Risky(s, Q, f)
  }

  lemma ClaimsMail(cfg: Config, s: System, f: DeliveryFence) returns (after: System)
    requires Reachable(cfg, s) && s.clock == 0 && s.doubts == map[] && s.mailers == map[]
    requires Only(s) && Offers(s.cells[Q], DELIVERY, 0)
    requires f == DeliveryFence(DELIVERY, s.cells[Q].deliveries[DELIVERY].generation + 1, MAILER)
    ensures Reachable(cfg, after) && after.doubts == map[] && MailerOf(after, MAILER) == Preparing(Q, f)
    ensures Only(after) && Deliveries.FenceHolds(after.cells[Q], f)
  {
    var claim := MailClaim(MAILER, Q, DELIVERY, Answered);
    assert Deliveries.ClaimDelivery(cfg, s.cells[Q], DELIVERY, MAILER, 0).1.DeliveryClaimed?;
    ReachesNext(cfg, s, claim);
    after := After(cfg, s, claim);
  }

  lemma Sends(cfg: Config, s: System) returns (after: System, f: DeliveryFence)
    requires Reachable(cfg, s) && s.clock == 0 && s.doubts == map[] && s.mailers == map[]
    requires Only(s) && Offers(s.cells[Q], DELIVERY, 0)
    ensures Reachable(cfg, after) && SentOnce(after, f)
  {
    f := DeliveryFence(DELIVERY, s.cells[Q].deliveries[DELIVERY].generation + 1, MAILER);
    var claimed := ClaimsMail(cfg, s, f);
    FindsBytes(cfg, claimed, f);
    PrepareStep(cfg, claimed, MAILER);
    ReachesNext(cfg, claimed, MailPrepare(MAILER, true));
    var ready := Prepared(cfg, claimed, MAILER);
    SendStep(cfg, ready, MAILER);
    ReachesNext(cfg, ready, MailSend(MAILER, Deliveries.ProviderAccepted));
    after := Drops(cfg, HandedOver(ready, MAILER), f);
  }

  lemma FindsBytes(cfg: Config, s: System, f: DeliveryFence)
    requires Reachable(cfg, s) && Q in s.cells && f.delivery in s.cells[Q].deliveries
    ensures HasMail(cfg, s, Q, f)
  {
    ReachableInv(cfg, s);
    BytesAreFound(cfg, s, Q, f);
  }

  lemma Drops(cfg: Config, s: System, f: DeliveryFence) returns (after: System)
    requires Reachable(cfg, s) && MailerOf(s, MAILER).Recording? && s.doubts == map[] && Risky(s, Q, f)
    requires Only(s) && Deliveries.FenceHolds(s.cells[Q], f) && f.delivery == DELIVERY && f.owner == MAILER
    ensures Reachable(cfg, after) && SentOnce(after, f)
  {
    ReachesNext(cfg, s, MailDrop(MAILER));
    after := After(cfg, s, MailDrop(MAILER));
    assert after == WithMailer(s, MAILER, MailerIdle);
    assert Risky(after, Q, f);
  }

  /** The unanswered claim, the adoption of the row just sent, and the second call. */
  lemma AdoptsAndResends(cfg: Config, s: System, f: DeliveryFence) returns (after: System)
    requires Reachable(cfg, s) && SentOnce(s, f)
    ensures Reachable(cfg, after) && !NeverResent(after)
  {
    var claim := MailClaim(MAILER, Q, DELIVERY, UnansweredLost);
    var asking := WithMailer(s, MAILER, MailClaimInDoubt);
    assert After(cfg, s, claim) == asking;
    ReachesNext(cfg, s, claim);
    var adopt := MailAdopt(MAILER, Some((Q, DELIVERY)));
    assert AdoptableDelivery(asking, MAILER, adopt.adopted);
    AdoptStep(cfg, asking, adopt);
    ReachesNext(cfg, asking, adopt);
    var adopted := WithMailer(asking, MAILER, Preparing(Q, f));
    assert After(cfg, asking, adopt) == adopted;
    FindsBytes(cfg, s, f);
    after := PreparesAndSends(cfg, adopted, f);
  }

  lemma PreparesAndSends(cfg: Config, s: System, f: DeliveryFence) returns (after: System)
    requires Reachable(cfg, s) && MailerOf(s, MAILER) == Preparing(Q, f) && HasMail(cfg, s, Q, f) && Risky(s, Q, f)
    ensures Reachable(cfg, after) && !NeverResent(after)
  {
    PrepareStep(cfg, s, MAILER);
    ReachesNext(cfg, s, MailPrepare(MAILER, true));
    var ready := Prepared(cfg, s, MAILER);
    assert Risky(ready, Q, f);
    SendStep(cfg, ready, MAILER);
    ReachesNext(cfg, ready, MailSend(MAILER, Deliveries.ProviderAccepted));
    after := HandedOver(ready, MAILER);
  }

  /**
   * At-most-once email fails without the hypothesis: whatever the configuration, some run hands a
   * delivery to the provider again after a call the provider may have accepted.
   */
  lemma SomeRunResends(cfg: Config)
    ensures exists steps :: !NeverResent(Run(cfg, INITIAL, steps))
  {
    ContentIsValid();
    var accepted := Accepts(cfg, CONTENT);
    var rendered := Renders(cfg, accepted);
    var issued := Issues(cfg, rendered);
    var requested := Requests(cfg, issued);
    var sent, f := Sends(cfg, requested);
    var resent := AdoptsAndResends(cfg, sent, f);
  }
}
