/**
 * Reading the input file: each CSV row's first field, stripped, is a
 * candidate pincode; candidates are split, in input order, into valid
 * (six digits) and invalid ones.
 */
module Pincodes {
  import opened Wrappers
  import opened Text

  /** One row as the CSV reader yields it: its fields. */
  type Row = seq<string>

  /** Why reading the input stops: a row without fields (a blank line) makes
      `row[0]` fail, and the failure ends the whole run. */
  datatype ReadError = EmptyRow(index: nat)

  /** The two lists the reader returns. */
  datatype Split = Split(valid: seq<string>, invalid: seq<string>)

  /** The validity rule: `p.isdigit() and len(p) == 6`. */
  predicate IsValidPincode(p: string) {
    AllDigits(p) && |p| == 6
  }

  predicate AllValid(ps: seq<string>) {
    forall k :: 0 <= k < |ps| ==> IsValidPincode(ps[k])
  }

  predicate NoneValid(ps: seq<string>) {
    forall k :: 0 <= k < |ps| ==> !IsValidPincode(ps[k])
  }

  predicate NoEmptyRow(rows: seq<Row>) {
    forall k :: 0 <= k < |rows| ==> rows[k] != []
  }

  /** The candidate pincode of every row: its first field, stripped. */
  function Candidates(rows: seq<Row>): (cs: seq<string>)
    requires NoEmptyRow(rows)
    ensures |cs| == |rows|
    ensures forall k :: 0 <= k < |rows| ==> cs[k] == Strip(rows[k][0])
  {
    if |rows| == 0 then []
    else Candidates(rows[..|rows| - 1]) + [Strip(rows[|rows| - 1][0])]
  }

  /** The index of the first row without fields, if any. */
  function FirstEmptyRow(rows: seq<Row>): (r: Option<nat>)
    ensures r.None? <==> NoEmptyRow(rows)
    ensures r.Some? ==> r.value < |rows| && rows[r.value] == []
    ensures r.Some? ==> forall k :: 0 <= k < r.value ==> rows[k] != []
  {
    if |rows| == 0 then None
    else if rows[0] == [] then Some(0)
    else match FirstEmptyRow(rows[1..])
      case None => None
      case Some(i) => Some(i + 1)
  }

  /** `xs` is an order-preserving merge of `a` and `b`: every element of `xs`
      comes from exactly one of them, and each keeps its relative order. */
  predicate Interleaves(xs: seq<string>, a: seq<string>, b: seq<string>)
    decreases |xs|
  {
    if |xs| == 0 then a == [] && b == []
    else
      var x := xs[|xs| - 1];
      || (|a| > 0 && a[|a| - 1] == x && Interleaves(xs[..|xs| - 1], a[..|a| - 1], b))
      || (|b| > 0 && b[|b| - 1] == x && Interleaves(xs[..|xs| - 1], a, b[..|b| - 1]))
  }

  /** The split of the candidates, appending each to the list it belongs to. */
  function Partition(cs: seq<string>): (r: Split)
    ensures |r.valid| + |r.invalid| == |cs|
    ensures AllValid(r.valid) && NoneValid(r.invalid)
  {
    if |cs| == 0 then Split([], [])
    else
      var rest := Partition(cs[..|cs| - 1]);
      var p := cs[|cs| - 1];
      if IsValidPincode(p) then Split(rest.valid + [p], rest.invalid)
      else Split(rest.valid, rest.invalid + [p])
  }

  /** The split is the one and only order-preserving division of the
      candidates into valid and invalid pincodes. */
  lemma {:induction false} PartitionCharacterised(cs: seq<string>, valid: seq<string>, invalid: seq<string>)
    ensures Partition(cs) == Split(valid, invalid)
        <==> Interleaves(cs, valid, invalid) && AllValid(valid) && NoneValid(invalid)
    decreases |cs|
  {
    if |cs| == 0 {
    } else {
      var init, p := cs[..|cs| - 1], cs[|cs| - 1];
      if IsValidPincode(p) {
        if |valid| > 0 {
          var v0 := valid[..|valid| - 1];
          PartitionCharacterised(init, v0, invalid);
          assert valid == v0 + [valid[|valid| - 1]];
          assert AllValid(valid) ==> AllValid(v0);
        } else {
          assert Partition(cs).valid != [];
        }
        if |invalid| > 0 {
          assert !IsValidPincode(invalid[|invalid| - 1]) || !NoneValid(invalid);
        }
      } else {
        if |invalid| > 0 {
          var i0 := invalid[..|invalid| - 1];
          PartitionCharacterised(init, valid, i0);
          assert invalid == i0 + [invalid[|invalid| - 1]];
          assert NoneValid(invalid) ==> NoneValid(i0);
        } else {
          assert Partition(cs).invalid != [];
        }
        if |valid| > 0 {
          assert IsValidPincode(valid[|valid| - 1]) || !AllValid(valid);
        }
      }
    }
  }

  /** Python's `read_valid_pincodes_from_csv` on already-parsed rows. */
  function ReadPincodes(rows: seq<Row>): (r: Result<Split, ReadError>)
    ensures r.Failure? <==> !NoEmptyRow(rows)
    ensures r.Failure? ==> r.error.index < |rows| && rows[r.error.index] == []
    ensures r.Success? ==> |r.value.valid| + |r.value.invalid| == |rows|
    ensures r.Success? ==> AllValid(r.value.valid) && NoneValid(r.value.invalid)
    ensures r.Success? ==> Interleaves(Candidates(rows), r.value.valid, r.value.invalid)
  {
    match FirstEmptyRow(rows)
    case Some(i) => Failure(EmptyRow(i))
    case None =>
      var split := Partition(Candidates(rows));
      PartitionCharacterised(Candidates(rows), split.valid, split.invalid);
      Success(split)
  }

  /** The reading loop, one row at a time, as the source runs it. */
  method ReadValidPincodes(rows: seq<Row>) returns (r: Result<Split, ReadError>)
    ensures r == ReadPincodes(rows)
  {
    var valid, invalid := [], [];
    var i := 0;
    assert rows[..0] == [];
    while i < |rows|
      invariant 0 <= i <= |rows|
      invariant ReadPincodes(rows[..i]) == Success(Split(valid, invalid))
    {
      if rows[i] == [] {
        FirstEmptyRowIsFirst(rows, i);
        return Failure(EmptyRow(i));
      }
      var pincode := Strip(rows[i][0]);
      ReadStep(rows, i);
      if IsValidPincode(pincode) {
        valid := valid + [pincode];
      } else {
        invalid := invalid + [pincode];
      }
      i := i + 1;
    }
    assert rows[..i] == rows;
    return Success(Split(valid, invalid));
  }

  /** Without empty rows, reading succeeds with the split of the candidates. */
  lemma ReadPincodesOfFullRows(rows: seq<Row>)
    requires NoEmptyRow(rows)
    ensures ReadPincodes(rows) == Success(Partition(Candidates(rows)))
  {
  }

  /** Reading one more non-empty row appends its stripped first field to the
      list it belongs to. */
  lemma ReadStep(rows: seq<Row>, i: nat)
    requires i < |rows| && rows[i] != [] && NoEmptyRow(rows[..i])
    ensures var before, p := Partition(Candidates(rows[..i])), Strip(rows[i][0]);
      ReadPincodes(rows[..i + 1])
        == Success(if IsValidPincode(p) then Split(before.valid + [p], before.invalid)
                   else Split(before.valid, before.invalid + [p]))
  {
    var p := Strip(rows[i][0]);
    CandidatesStep(rows, i);
    PartitionStep(Candidates(rows[..i]), p);
    ReadPincodesOfFullRows(rows[..i]);
    ReadPincodesOfFullRows(rows[..i + 1]);
  }

  /** Reading one more row appends its stripped first field to the candidates. */
  lemma CandidatesStep(rows: seq<Row>, i: nat)
    requires i < |rows| && rows[i] != [] && NoEmptyRow(rows[..i])
    ensures NoEmptyRow(rows[..i + 1])
    ensures Candidates(rows[..i + 1]) == Candidates(rows[..i]) + [Strip(rows[i][0])]
  {
    assert rows[..i + 1][..i] == rows[..i];
  }

  /** One more candidate is appended to the list it belongs to. */
  lemma PartitionStep(cs: seq<string>, p: string)
    ensures var before := Partition(cs);
      Partition(cs + [p])
        == if IsValidPincode(p) then Split(before.valid + [p], before.invalid)
           else Split(before.valid, before.invalid + [p])
  {
    assert (cs + [p])[..|cs|] == cs;
  }

  /** An empty row preceded only by non-empty rows is the first empty row. */
  lemma {:induction false} FirstEmptyRowIsFirst(rows: seq<Row>, i: nat)
    requires i < |rows| && rows[i] == [] && NoEmptyRow(rows[..i])
    ensures FirstEmptyRow(rows) == Some(i)
    ensures ReadPincodes(rows) == Failure(EmptyRow(i))
    decreases i
  {
    if i > 0 {
      assert rows[0] == rows[..i][0];
      assert rows[1..][..i - 1] == rows[..i][1..];
      FirstEmptyRowIsFirst(rows[1..], i - 1);
    }
  }
}
