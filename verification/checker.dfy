/**
 * One whole run of the checker: read the pincodes, check the valid ones,
 * and shape the two output files.
 */
module Checker {
  import opened Wrappers
  import opened Text
  import opened Outcomes
  import opened Providers
  import opened Pincodes
  import opened Orchestrator
  import opened Report

  /** The contents of the results file and of the invalid-pincodes file. */
  datatype Files = Files(results: seq<Record>, invalid: seq<Record>)

  /** `main`: a blank input row stops the run before anything is written;
      otherwise every valid pincode gets a results line and every invalid
      one an invalid-pincodes line, both in input order. */
  function Run(rows: seq<Row>, world: World): (r: Result<Files, ReadError>)
    ensures r.Failure? <==> !NoEmptyRow(rows)
    ensures r.Success? ==> |r.value.results| + |r.value.invalid| == |rows| + 2
    ensures r.Success? ==> ResultsFileShape(r.value.results) && InvalidFileShape(r.value.invalid)
    ensures r.Success? ==>
      Interleaves(Candidates(rows), FirstColumn(r.value.results), FirstColumn(r.value.invalid))
    ensures r.Success? ==> ResultsFileChecked(r.value.results, world)
  {
    match ReadPincodes(rows)
    case Failure(e) => Failure(e)
    case Success(split) =>
      ResultsHoldValidPincodes(split.valid, world);
      InvalidHoldInvalidPincodes(split.invalid);
      Success(Files(ResultsTable(CheckAll(split.valid, world)), InvalidTable(split.invalid)))
  }

  /** A results file: its header, then five-field lines, each starting with
      a valid pincode. */
  predicate ResultsFileShape(t: seq<Record>) {
    && |t| >= 1 && t[0] == ResultsHeader
    && forall k :: 1 <= k < |t| ==> |t[k]| == 5 && IsValidPincode(t[k][0])
  }

  /** An invalid-pincodes file: its header, then one-field lines, none of
      them a valid pincode. */
  predicate InvalidFileShape(t: seq<Record>) {
    && |t| >= 1 && t[0] == InvalidHeader
    && forall k :: 1 <= k < |t| ==> |t[k]| == 1 && !IsValidPincode(t[k][0])
  }

  /** The first field of every line after the header. */
  function FirstColumn(t: seq<Record>): (col: seq<string>)
    requires |t| >= 1 && forall k :: 1 <= k < |t| ==> |t[k]| >= 1
    ensures |col| == |t| - 1 && forall k :: 1 <= k < |t| ==> col[k - 1] == t[k][0]
  {
    seq(|t| - 1, k requires 0 <= k < |t| - 1 => t[k + 1][0])
  }

  /** Line `k` of a results file is the line written for the checks of its
      own pincode, run as the `k`-th valid pincode. */
  predicate ResultsFileChecked(t: seq<Record>, world: World) {
    forall k :: 1 <= k < |t| ==>
      |t[k]| >= 1 && t[k] == ResultRecord(CheckPincode(t[k][0], world(k - 1, t[k][0])))
  }

  /** A results file written from valid pincodes holds them, in order, one
      per line, each line being the one written for that pincode's checks. */
  lemma ResultsHoldValidPincodes(pins: seq<string>, world: World)
    requires AllValid(pins)
    ensures ResultsFileShape(ResultsTable(CheckAll(pins, world)))
    ensures FirstColumn(ResultsTable(CheckAll(pins, world))) == pins
    ensures ResultsFileChecked(ResultsTable(CheckAll(pins, world)), world)
  {
    var rows := CheckAll(pins, world);
    var t := ResultsTable(rows);
    forall k | 1 <= k < |t|
      ensures |t[k]| == 5 && t[k][0] == pins[k - 1] && IsValidPincode(t[k][0])
      ensures t[k] == ResultRecord(CheckPincode(pins[k - 1], world(k - 1, pins[k - 1])))
    {
      assert t[(k - 1) + 1][0] == rows[k - 1].pincode;
      assert RowFor(rows[k - 1], pins[k - 1], world(k - 1, pins[k - 1]));
    }
  }

  /** An invalid-pincodes file holds the invalid values, in order, one per
      line, and none of them is a valid pincode. */
  lemma InvalidHoldInvalidPincodes(pins: seq<string>)
    requires NoneValid(pins)
    ensures InvalidFileShape(InvalidTable(pins))
    ensures FirstColumn(InvalidTable(pins)) == pins
  {
    var t := InvalidTable(pins);
    forall k | 1 <= k < |t|
      ensures |t[k]| == 1 && t[k][0] == pins[k - 1] && !IsValidPincode(t[k][0])
    {
      assert t[(k - 1) + 1] == [pins[k - 1]];
    }
  }

  /** Zepto serves the pincode and shows "Bangalore"; Blinkit lists no
      option; Swiggy's wait for address options times out. */
  const ServedInBangalore := Observations(
    ZeptoObservation(Seen(()), Seen(()), Seen(3), Seen(()), Seen(()), Seen(false), Seen("Bangalore")),
    BlinkitObservation(Seen(()), Seen(0), Raised, Raised, Raised),
    InstamartObservation(Seen(()), Raised, Raised, Raised, Raised, Raised, Raised))

  /** Zepto says "Coming Soon" without a readable address; Blinkit shows its
      non-serviceable step; Swiggy's wait for address options times out. */
  const NotServed := Observations(
    ZeptoObservation(Seen(()), Seen(()), Seen(1), Seen(()), Seen(()), Seen(true), Raised),
    BlinkitObservation(Seen(()), Seen(2), Seen(()), Seen(true), Raised),
    InstamartObservation(Seen(()), Raised, Raised, Raised, Raised, Raised, Raised))

  /** Which observations the example run meets: pincode 562110 is served in
      Bangalore, any other is not served. */
  function ExampleWorld(k: nat, pin: string): Observations {
    if pin == "562110" then ServedInBangalore else NotServed
  }

  /** A three-row input whose middle row is not a valid pincode: the results
      file holds the first and third pincodes, in that order, checked as the
      first and second valid pincodes; the invalid file holds the middle one. */
  lemma ValidInvalidValid(a: string, b: string, c: string, world: World)
    requires IsValidPincode(a) && !IsValidPincode(b) && IsValidPincode(c)
    requires b == [] || (!IsSpace(b[0]) && !IsSpace(b[|b| - 1]))
    ensures Run([[a], [b], [c]], world)
         == Success(Files(
              [ResultsHeader, ResultRecord(CheckPincode(a, world(0, a))), ResultRecord(CheckPincode(c, world(1, c)))],
              [InvalidHeader, [b]]))
  {
    ValidInvalidValidRead(a, b, c);
    RunOfTwoValidOneInvalid([[a], [b], [c]], world, a, b, c);
  }

  /** Once reading has split the rows, the files follow from the split. */
  lemma RunOfTwoValidOneInvalid(rows: seq<Row>, world: World, a: string, b: string, c: string)
    requires ReadPincodes(rows) == Success(Split([a, c], [b]))
    ensures Run(rows, world)
         == Success(Files(
              [ResultsHeader, ResultRecord(CheckPincode(a, world(0, a))), ResultRecord(CheckPincode(c, world(1, c)))],
              [InvalidHeader, [b]]))
  {
    TwoResults(a, c, world);
    assert InvalidTable([b]) == [InvalidHeader, [b]];
  }

  /** The results file for two valid pincodes. */
  lemma TwoResults(a: string, c: string, world: World)
    ensures ResultsTable(CheckAll([a, c], world))
         == [ResultsHeader, ResultRecord(CheckPincode(a, world(0, a))), ResultRecord(CheckPincode(c, world(1, c)))]
  {
    var valid := [a, c];
    var r1, r2 := CheckPincode(a, world(0, a)), CheckPincode(c, world(1, c));
    assert CheckAll([a], world) == [r1] by {
      assert [a][..0] == [];
    }
    assert CheckAll(valid, world) == [r1, r2] by {
      assert valid[..1] == [a];
    }
    var recs := ResultRecords([r1, r2]);
    assert recs == [ResultRecord(r1), ResultRecord(r2)];
  }

  /** Reading the three rows keeps the first and third as valid. */
  lemma ValidInvalidValidRead(a: string, b: string, c: string)
    requires IsValidPincode(a) && !IsValidPincode(b) && IsValidPincode(c)
    requires b == [] || (!IsSpace(b[0]) && !IsSpace(b[|b| - 1]))
    ensures ReadPincodes([[a], [b], [c]]) == Success(Split([a, c], [b]))
  {
    var rows: seq<Row> := [[a], [b], [c]];
    assert Strip(a) == a && Strip(b) == b && Strip(c) == c by {
      assert !IsSpace(a[0]) && !IsSpace(a[5]) && !IsSpace(c[0]) && !IsSpace(c[5]);
      StripUnpadded(a);
      StripUnpadded(b);
      StripUnpadded(c);
    }
    ThreeCandidates(a, b, c);
    ThreePartition(a, b, c);
    ReadPincodesOfFullRows(rows);
  }

  /** Single-field rows whose fields need no stripping are their own
      candidates. */
  lemma ThreeCandidates(a: string, b: string, c: string)
    requires Strip(a) == a && Strip(b) == b && Strip(c) == c
    ensures NoEmptyRow([[a], [b], [c]])
    ensures Candidates([[a], [b], [c]]) == [a, b, c]
  {
    var rows: seq<Row> := [[a], [b], [c]];
    assert NoEmptyRow(rows);
    var cands := Candidates(rows);
    assert cands[0] == a && cands[1] == b && cands[2] == c;
  }

  /** Valid, invalid, valid splits into the outer two and the middle one. */
  lemma ThreePartition(a: string, b: string, c: string)
    requires IsValidPincode(a) && !IsValidPincode(b) && IsValidPincode(c)
    ensures Partition([a, b, c]) == Split([a, c], [b])
  {
    assert Partition([a]) == Split([a], []) by {
      assert [a][..0] == [];
    }
    assert Partition([a, b]) == Split([a], [b]) by {
      assert [a, b][..1] == [a];
    }
    assert [a, b, c][..2] == [a, b];
  }

  /** An example run: 562110 is served by Zepto in Bangalore, 11111 is too
      short, 400001 is not served. */
  lemma ExampleRun()
    ensures Run([["562110"], ["11111"], ["400001"]], ExampleWorld)
         == Success(Files(
              [ResultsHeader,
               ["562110", "Bangalore", "Serviceable", "Invalid or No Match", "Error"],
               ["400001", "Serviceable, but address unknown", "Not Serviceable", "Not Serviceable", "Error"]],
              [InvalidHeader, ["11111"]]))
  {
    assert IsValidPincode("562110") && IsValidPincode("400001") && !IsValidPincode("11111");
    ValidInvalidValid("562110", "11111", "400001", ExampleWorld);
    assert CheckPincode("562110", ServedInBangalore)
        == ResultRow("562110", "Bangalore", Serviceable, InvalidOrNoMatch, Error);
    assert CheckPincode("400001", NotServed)
        == ResultRow("400001", ZeptoAddressUnknown, NotServiceable, NotServiceable, Error);
  }
}
