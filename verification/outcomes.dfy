/**
 * What a provider check reports: a status label out of a small closed set
 * and an address string, with "N/A" standing for no address.
 */
module Outcomes {
  import opened Wrappers

  datatype Status = Serviceable | NotServiceable | InvalidOrNoMatch | Unconfirmed | Error

  /** The placeholder address used when a check learned no address. */
  const NoAddress: string := "N/A"

  /** The `(status, address)` pair a provider check returns. */
  datatype Outcome = Outcome(status: Status, address: string)

  /** What one step of driving a provider page gave: it raised an exception,
      or it completed and (for a read) saw `value`. */
  datatype Probe<T> = Raised | Seen(value: T)

  /** A step that completes without reading anything (a click, typing). */
  type Action = Probe<()>

  /** The text written for a status in the results file. */
  function Label(s: Status): string {
    match s
    case Serviceable => "Serviceable"
    case NotServiceable => "Not Serviceable"
    case InvalidOrNoMatch => "Invalid or No Match"
    case Unconfirmed => "Unconfirmed"
    case Error => "Error"
  }

  /** Reads a status label back. */
  function ParseLabel(t: string): (r: Option<Status>)
    ensures r.Some? ==> Label(r.value) == t
    ensures r.None? ==> forall s: Status :: Label(s) != t
  {
    if t == "Serviceable" then Some(Serviceable)
    else if t == "Not Serviceable" then Some(NotServiceable)
    else if t == "Invalid or No Match" then Some(InvalidOrNoMatch)
    else if t == "Unconfirmed" then Some(Unconfirmed)
    else if t == "Error" then Some(Error)
    else None
  }

  /** Every status is read back from its label, so distinct statuses have
      distinct labels. */
  lemma LabelRoundTrip(s: Status)
    ensures ParseLabel(Label(s)) == Some(s)
  {
  }

  /** The obligation every provider check meets: a check that failed or found
      no match reports no address. */
  predicate AddressOnlyWhenResolved(o: Outcome) {
    (o.status == Error || o.status == InvalidOrNoMatch) ==> o.address == NoAddress
  }
}
