/** Validity and expiry of a quote: the read projection and the materializing job. */
module Expiry {
  import opened Wrappers
  import opened Rows

  predicate IsPastValidity(issue: Option<Issue>, now: nat) {
    issue.Some? && now >= issue.value.validUntil
  }

  datatype Effective = Effective(status: QuoteStatus, expiredAt: Option<nat>)

  function EffectiveExpiry(q: Quote, now: nat): Effective {
    if q.status == Issued && IsPastValidity(q.issue, now) then Effective(Expired, Some(q.issue.value.validUntil))
    else Effective(q.status, q.expiredAt)
  }

  /** T9 for one locked candidate of the expiry job. */
  function MaterializeExpiry(c: Cell, now: nat): (Cell, Reply) {
    if c.quote.status != Issued || !IsPastValidity(c.quote.issue, now) then (c, NothingDue)
    else
      (c.(quote := c.quote.(status := Expired, expiredAt := Some(c.quote.issue.value.validUntil), version := c.quote.version + 1),
          audit := Append(c.audit, QuoteExpired(c.quote.version + 1), Some(Issued), Some(Expired))),
       Materialized(c.quote.version + 1))
  }
}
