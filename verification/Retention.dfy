/** How long a quarantined file or a backup is kept (teldrive_lab/lifecycle.py:40-43,
    teldrive_lab/backups.py:38-40): neither may go before either of its two intervals is over. */
module Retention {
  import opened Base

  datatype Policy = Policy(retention: real, safetyWindow: real)

  /** The constructor: neither interval may be negative. */
  function NewPolicy(retention: real, safetyWindow: real): (r: Result<Policy, Error>)
    ensures r.Ok? <==> 0.0 <= retention && 0.0 <= safetyWindow
    ensures r.Ok? ==> r.value == Policy(retention, safetyWindow)
    ensures r.Err? ==> r.error == ValueError
  {
    if retention < 0.0 || safetyWindow < 0.0 then Err(ValueError) else Ok(Policy(retention, safetyWindow))
  }

  function EffectiveRetention(p: Policy): (kept: real)
    ensures kept >= p.retention && kept >= p.safetyWindow && (kept == p.retention || kept == p.safetyWindow)
  {
    Max(p.retention, p.safetyWindow)
  }
}
