/**
 * The main loop: every valid pincode is checked against Zepto, Blinkit and
 * Instamart in that order, and the three outcomes are merged into one row.
 */
module Orchestrator {
  import opened Outcomes
  import opened Providers

  /** What the three provider pages showed while one pincode was checked. */
  datatype Observations = Observations(
    zepto: ZeptoObservation,
    blinkit: BlinkitObservation,
    instamart: InstamartObservation)

  /** The page observations while the `k`-th valid pincode, `pin`, is
      checked. The pages are outside the program, so they are a parameter. */
  type World = (nat, string) -> Observations

  /** One line of the results file before it is written. */
  datatype ResultRow = ResultRow(
    pincode: string,
    address: string,
    zepto: Status,
    blinkit: Status,
    instamart: Status)

  /** `addrs[k]` is the first address in `addrs` other than "N/A". */
  predicate FirstKnownAt(addrs: seq<string>, k: nat) {
    && k < |addrs| && addrs[k] != NoAddress
    && forall j :: 0 <= j < k ==> addrs[j] == NoAddress
  }

  /** Python's `next((a for a in addrs if a != "N/A"), "N/A")`. */
  function FirstKnown(addrs: seq<string>): (r: string)
    ensures r == NoAddress <==> forall k :: 0 <= k < |addrs| ==> addrs[k] == NoAddress
    ensures r != NoAddress ==> exists k: nat | k < |addrs| :: FirstKnownAt(addrs, k) && addrs[k] == r
  {
    if |addrs| == 0 then NoAddress
    else if addrs[0] != NoAddress then
      assert FirstKnownAt(addrs, 0);
      addrs[0]
    else
      var r := FirstKnown(addrs[1..]);
      if r != NoAddress then
        var k: nat :| k < |addrs[1..]| && FirstKnownAt(addrs[1..], k) && addrs[1..][k] == r;
        assert FirstKnownAt(addrs, k + 1);
        r
      else
        r
  }

  /** The address of a pincode's row: Zepto's if it has one, else Blinkit's,
      else Instamart's, else "N/A". */
  function MergeAddress(zepto: string, blinkit: string, instamart: string): string {
    FirstKnown([zepto, blinkit, instamart])
  }

  /** The merge spelled out provider by provider. */
  lemma MergeAddressPrecedence(zepto: string, blinkit: string, instamart: string)
    ensures zepto != NoAddress ==> MergeAddress(zepto, blinkit, instamart) == zepto
    ensures zepto == NoAddress && blinkit != NoAddress ==> MergeAddress(zepto, blinkit, instamart) == blinkit
    ensures zepto == NoAddress && blinkit == NoAddress ==> MergeAddress(zepto, blinkit, instamart) == instamart
  {
    var addrs := [zepto, blinkit, instamart];
    var r := MergeAddress(zepto, blinkit, instamart);
    if r != NoAddress {
      var k: nat :| k < 3 && FirstKnownAt(addrs, k) && addrs[k] == r;
      assert k > 0 ==> addrs[0] == NoAddress;
      assert k > 1 ==> addrs[1] == NoAddress;
    } else {
      assert addrs[1] == NoAddress && addrs[2] == NoAddress;
    }
  }

  /** The row built for one pincode from the three checks. */
  function CheckPincode(pin: string, obs: Observations): ResultRow {
    var z := CheckZepto(obs.zepto);
    var b := CheckBlinkit(obs.blinkit);
    var i := CheckInstamart(obs.instamart);
    ResultRow(pin, MergeAddress(z.address, b.address, i.address), z.status, b.status, i.status)
  }

  /** `row` is the row for pincode `pin` given what the pages showed. */
  predicate RowFor(row: ResultRow, pin: string, obs: Observations) {
    && row.pincode == pin
    && row.zepto == CheckZepto(obs.zepto).status
    && row.blinkit == CheckBlinkit(obs.blinkit).status
    && row.instamart == CheckInstamart(obs.instamart).status
    && row.address == FirstKnown([CheckZepto(obs.zepto).address,
                                  CheckBlinkit(obs.blinkit).address,
                                  CheckInstamart(obs.instamart).address])
  }

  /** The rows for a list of valid pincodes, one after another. */
  function CheckAll(pins: seq<string>, world: World): (rows: seq<ResultRow>)
    ensures |rows| == |pins|
    ensures forall k :: 0 <= k < |pins| ==> RowFor(rows[k], pins[k], world(k, pins[k]))
  {
    if |pins| == 0 then []
    else
      var k := |pins| - 1;
      CheckAll(pins[..k], world) + [CheckPincode(pins[k], world(k, pins[k]))]
  }

  /** The loop of `main`: check each pincode in turn and append its row. */
  method RunChecks(pins: seq<string>, world: World) returns (results: seq<ResultRow>)
    ensures |results| == |pins|
    ensures forall k :: 0 <= k < |pins| ==> RowFor(results[k], pins[k], world(k, pins[k]))
  {
    results := [];
    var k := 0;
    while k < |pins|
      invariant 0 <= k <= |pins|
      invariant |results| == k
      invariant forall j :: 0 <= j < k ==> RowFor(results[j], pins[j], world(j, pins[j]))
    {
      var pin := pins[k];
      var obs := world(k, pin);
      var zepto := CheckZepto(obs.zepto);
      var blinkit := CheckBlinkit(obs.blinkit);
      var instamart := CheckInstamart(obs.instamart);
      var address := MergeAddress(zepto.address, blinkit.address, instamart.address);
      results := results + [ResultRow(pin, address, zepto.status, blinkit.status, instamart.status)];
      k := k + 1;
    }
  }

  /** A check that fails for one pincode does not stop the run: every
      pincode still gets its row, the failing provider's column of that row
      says "Error", and the rows of all other pincodes are the ones the run
      would have produced had that check not failed. */
  lemma ErrorIsRecordedNotFatal(pins: seq<string>, world: World, failing: World, k: nat)
    requires k < |pins|
    requires var obs := failing(k, pins[k]);
      || CheckZepto(obs.zepto).status == Error
      || CheckBlinkit(obs.blinkit).status == Error
      || CheckInstamart(obs.instamart).status == Error
    requires forall j :: 0 <= j < |pins| && j != k ==> failing(j, pins[j]) == world(j, pins[j])
    ensures |CheckAll(pins, failing)| == |pins|
    ensures var obs, row := failing(k, pins[k]), CheckAll(pins, failing)[k];
      && (CheckZepto(obs.zepto).status == Error ==> row.zepto == Error)
      && (CheckBlinkit(obs.blinkit).status == Error ==> row.blinkit == Error)
      && (CheckInstamart(obs.instamart).status == Error ==> row.instamart == Error)
    ensures forall j :: 0 <= j < |pins| && j != k ==> CheckAll(pins, failing)[j] == CheckAll(pins, world)[j]
  {
  }
}
