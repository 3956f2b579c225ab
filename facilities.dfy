/**
 * The facility registry held in the snapshot document: one record per
 * physical facility, and the two-field patch that a report applies to the
 * first record carrying the reported id.
 *
 * `FirstMatch` and `Updated` are the reference definitions that the
 * imperative `UpdateJson` loop and the `update` endpoint are proved against.
 */
module Facilities {

  datatype Option<T> = None | Some(value: T)

  /** One entry of the document's `facilities` list. */
  datatype Facility = Facility(
    id: int,
    name: string,
    subName: string,
    maxCapacity: int,
    currentCount: int)

  /** The `new_data` dictionary: only the two occupancy fields. */
  datatype Patch = Patch(maxCapacity: int, currentCount: int)

  /** `dict.update` of a record with a patch: the patch's keys overwrite, every other key stays. */
  function Merge(f: Facility, p: Patch): Facility
  {
    f.(maxCapacity := p.maxCapacity, currentCount := p.currentCount)
  }

  /** The position of the first record whose id is `id`, if there is one. */
  function FirstMatch(fs: seq<Facility>, id: int): (r: Option<nat>)
    ensures r.Some? ==> r.value < |fs| && fs[r.value].id == id
    ensures r.Some? ==> forall j :: 0 <= j < r.value ==> fs[j].id != id
    ensures r.None? <==> forall j :: 0 <= j < |fs| ==> fs[j].id != id
  {
    if fs == [] then None
    else if fs[0].id == id then Some(0)
    else match FirstMatch(fs[1..], id)
      case None => None
      case Some(k) => Some(k + 1)
  }

  predicate HasId(fs: seq<Facility>, id: int)
  {
    exists j :: 0 <= j < |fs| && fs[j].id == id
  }

  /**
   * The list after a report for `id`: the first record with that id is merged
   * with the patch; if there is none the list is returned as it was.
   */
  function Updated(fs: seq<Facility>, id: int, p: Patch): (r: seq<Facility>)
    ensures |r| == |fs|
    ensures forall j :: 0 <= j < |r| ==>
      r[j].id == fs[j].id && r[j].name == fs[j].name && r[j].subName == fs[j].subName
  {
    match FirstMatch(fs, id)
    case None => fs
    case Some(k) => fs[k := Merge(fs[k], p)]
  }

  /** Two lists whose ids agree position by position have the same first match. */
  lemma {:induction false} FirstMatchOnlyReadsIds(fs: seq<Facility>, gs: seq<Facility>, id: int)
    requires |fs| == |gs|
    requires forall j :: 0 <= j < |fs| ==> fs[j].id == gs[j].id
    ensures FirstMatch(fs, id) == FirstMatch(gs, id)
  {
    if fs != [] && fs[0].id != id {
      FirstMatchOnlyReadsIds(fs[1..], gs[1..], id);
    }
  }

  /** A report for a known id overwrites exactly the first matching record's two occupancy fields. */
  lemma UpdatedHit(fs: seq<Facility>, id: int, p: Patch)
    requires HasId(fs, id)
    ensures FirstMatch(fs, id).Some?
    ensures var k := FirstMatch(fs, id).value;
      var r := Updated(fs, id, p);
      r[k] == Facility(fs[k].id, fs[k].name, fs[k].subName, p.maxCapacity, p.currentCount) &&
      forall j :: 0 <= j < |fs| && j != k ==> r[j] == fs[j]
  {
  }

  /** A report for an unknown id leaves the list exactly as it was. */
  lemma UpdatedMiss(fs: seq<Facility>, id: int, p: Patch)
    requires !HasId(fs, id)
    ensures FirstMatch(fs, id) == None
    ensures Updated(fs, id, p) == fs
  {
  }

  /** Only the first record with the id changes: later records with the same id are left alone. */
  lemma UpdatedOnlyFirst(fs: seq<Facility>, id: int, p: Patch, i: int, j: int)
    requires 0 <= i < j < |fs|
    requires fs[i].id == id && fs[j].id == id
    ensures Updated(fs, id, p)[j] == fs[j]
  {
  }

  /** Applying the same report twice gives the same list as applying it once. */
  lemma UpdatedIdempotent(fs: seq<Facility>, id: int, p: Patch)
    ensures Updated(Updated(fs, id, p), id, p) == Updated(fs, id, p)
  {
    FirstMatchOnlyReadsIds(fs, Updated(fs, id, p), id);
  }

  /** A later report for the same id fully overrides an earlier one (last writer wins). */
  lemma UpdatedLastWriterWins(fs: seq<Facility>, id: int, p: Patch, q: Patch)
    ensures Updated(Updated(fs, id, p), id, q) == Updated(fs, id, q)
  {
    FirstMatchOnlyReadsIds(fs, Updated(fs, id, p), id);
  }

  /**
   * Reports for two different known ids do not interfere: both sets of figures
   * are present afterwards, and the order of the two reports does not matter.
   */
  lemma UpdatedCommute(fs: seq<Facility>, a: int, b: int, p: Patch, q: Patch)
    requires a != b
    requires HasId(fs, a) && HasId(fs, b)
    ensures FirstMatch(fs, a).Some? && FirstMatch(fs, b).Some?
    ensures var r := Updated(Updated(fs, a, p), b, q);
      var ka := FirstMatch(fs, a).value;
      var kb := FirstMatch(fs, b).value;
      r[ka].maxCapacity == p.maxCapacity && r[ka].currentCount == p.currentCount &&
      r[kb].maxCapacity == q.maxCapacity && r[kb].currentCount == q.currentCount
    ensures Updated(Updated(fs, a, p), b, q) == Updated(Updated(fs, b, q), a, p)
  {
    FirstMatchOnlyReadsIds(fs, Updated(fs, a, p), b);
    FirstMatchOnlyReadsIds(fs, Updated(fs, b, q), a);
  }

  /** Every record holds non-negative occupancy figures. */
  predicate NonNegative(fs: seq<Facility>)
  {
    forall j :: 0 <= j < |fs| ==> fs[j].maxCapacity >= 0 && fs[j].currentCount >= 0
  }

  /** A patch with non-negative figures never brings a negative figure into the list. */
  lemma UpdatedKeepsNonNegative(fs: seq<Facility>, id: int, p: Patch)
    requires NonNegative(fs)
    requires p.maxCapacity >= 0 && p.currentCount >= 0
    ensures NonNegative(Updated(fs, id, p))
  {
  }
}
