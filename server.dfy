/**
 * The crowd-level server's report endpoint: the body it accepts, the
 * in-place list update, and the load / patch / save-on-success cycle over the
 * snapshot document.
 */
module Server {
  import opened Facilities

  /** The body of a report, before validation. */
  datatype Information = Information(id: int, name: string, maxCapacity: int, currentCount: int)

  /** The validation rules of the request model; a body that breaks one is answered with status 422. */
  predicate Accepted(info: Information)
  {
    1 <= |info.name| <= 50 && info.maxCapacity >= 0 && info.currentCount >= 0
  }

  /** The patch built from a report: the name is not part of it. */
  function PatchOf(info: Information): Patch
  {
    Patch(info.maxCapacity, info.currentCount)
  }

  const CorrectMessage: string := "Correct!"
  const FailedMessage: string := "Failed"

  /** What the endpoint answers: a validation rejection, or `{"Result": message}`. */
  datatype Response = Unprocessable | Result(message: string)

  /**
   * One report as a transition of the stored document: the answer and the
   * document afterwards.
   */
  function Handle(doc: seq<Facility>, info: Information): (out: (Response, seq<Facility>))
    ensures out.0 == Unprocessable <==> !Accepted(info)
    ensures out.0 == Result(CorrectMessage) <==> Accepted(info) && HasId(doc, info.id)
    ensures out.0 == Result(FailedMessage) <==> Accepted(info) && !HasId(doc, info.id)
    ensures out.0 != Result(CorrectMessage) ==> out.1 == doc
    ensures out.0 == Result(CorrectMessage) ==> out.1 == Updated(doc, info.id, PatchOf(info))
  {
    if !Accepted(info) then (Unprocessable, doc)
    else if FirstMatch(doc, info.id).Some? then (Result(CorrectMessage), Updated(doc, info.id, PatchOf(info)))
    else (Result(FailedMessage), doc)
  }

  /**
   * Walks the list and merges the patch into the first record whose id is
   * `facilityId`, in place; reports whether such a record was found.
   */
  method UpdateJson(facilities: array<Facility>, facilityId: int, newData: Patch) returns (found: bool)
    modifies facilities
    ensures found <==> HasId(old(facilities[..]), facilityId)
    ensures facilities[..] == Updated(old(facilities[..]), facilityId, newData)
  {
    for i := 0 to facilities.Length
      invariant facilities[..] == old(facilities[..])
      invariant forall j :: 0 <= j < i ==> facilities[j].id != facilityId
    {
      if facilities[i].id == facilityId {
        facilities[i] := Merge(facilities[i], newData);
        return true;
      }
    }
    return false;
  }

  /** The durable snapshot: the `facilities` list of the JSON document on disk. */
  class Store {
    var document: seq<Facility>

    constructor (seed: seq<Facility>)
      ensures document == seed
    {
      document := seed;
    }

    /** Reads the document into a fresh, mutable list. */
    method Load() returns (data: array<Facility>)
      ensures fresh(data) && data[..] == document
    {
      var snapshot := document;
      data := new Facility[|snapshot|](i requires 0 <= i < |snapshot| => snapshot[i]);
    }

    /** Rewrites the whole document. */
    method Save(data: seq<Facility>)
      modifies this
      ensures document == data
    {
      document := data;
    }

    /**
     * The report endpoint: validate, load, patch the first record with the
     * id, and save the whole document only when one was found.
     */
    method Update(info: Information) returns (response: Response)
      modifies this
      ensures (response, document) == Handle(old(document), info)
      ensures NonNegative(old(document)) ==> NonNegative(document)
    {
      if NonNegative(document) {
        HandleKeepsNonNegative(document, info);
      }
      if !Accepted(info) {
        return Unprocessable;
      }
      var data := Load();
      var newData := PatchOf(info);
      var found := UpdateJson(data, info.id, newData);
      if found {
        Save(data[..]);
        response := Result(CorrectMessage);
      } else {
        response := Result(FailedMessage);
      }
    }
  }

  /** Every answer leaves the registry as it was: same length, same ids, names and locations. */
  lemma HandleKeepsRegistry(doc: seq<Facility>, info: Information)
    ensures |Handle(doc, info).1| == |doc|
    ensures forall j :: 0 <= j < |doc| ==>
      var r := Handle(doc, info).1[j];
      r.id == doc[j].id && r.name == doc[j].name && r.subName == doc[j].subName
  {
  }

  /** An accepted report for a known id stores exactly its two figures in the first matching record. */
  lemma HandleKnownId(doc: seq<Facility>, info: Information)
    requires Accepted(info) && HasId(doc, info.id)
    ensures var k := FirstMatch(doc, info.id).value;
      var (resp, doc') := Handle(doc, info);
      resp == Result(CorrectMessage) &&
      doc'[k].maxCapacity == info.maxCapacity && doc'[k].currentCount == info.currentCount &&
      doc'[k].id == doc[k].id && doc'[k].name == doc[k].name && doc'[k].subName == doc[k].subName &&
      forall j :: 0 <= j < |doc| && j != k ==> doc'[j] == doc[j]
  {
    UpdatedHit(doc, info.id, PatchOf(info));
  }

  /** A stored document with non-negative figures keeps them after any report. */
  lemma HandleKeepsNonNegative(doc: seq<Facility>, info: Information)
    requires NonNegative(doc)
    ensures NonNegative(Handle(doc, info).1)
  {
    if Accepted(info) {
      UpdatedKeepsNonNegative(doc, info.id, PatchOf(info));
    }
  }

  /** A count above the capacity is a valid report: it is accepted and stored as given, not clamped. */
  lemma HandleAcceptsOverCapacity(doc: seq<Facility>, info: Information)
    requires Accepted(info) && HasId(doc, info.id)
    requires info.currentCount > info.maxCapacity
    ensures Handle(doc, info).0 == Result(CorrectMessage)
    ensures var k := FirstMatch(doc, info.id).value;
      Handle(doc, info).1[k].currentCount > Handle(doc, info).1[k].maxCapacity
  {
    HandleKnownId(doc, info);
  }

  /** The reported name is never written: two reports differing only in their names store the same document. */
  lemma HandleIgnoresName(doc: seq<Facility>, info: Information, name: string)
    requires Accepted(info) && 1 <= |name| <= 50
    ensures Handle(doc, info).1 == Handle(doc, info.(name := name)).1
  {
  }

  /** The stored document after the endpoint has answered each report of `infos` in turn. */
  function Replay(doc: seq<Facility>, infos: seq<Information>): (r: seq<Facility>)
    ensures |r| == |doc|
    ensures forall j :: 0 <= j < |doc| ==>
      r[j].id == doc[j].id && r[j].name == doc[j].name && r[j].subName == doc[j].subName
    ensures NonNegative(doc) ==> NonNegative(r)
  {
    if infos == [] then doc
    else
      var before := Replay(doc, infos[..|infos| - 1]);
      HandleKeepsRegistry(before, infos[|infos| - 1]);
      if NonNegative(before) then
        HandleKeepsNonNegative(before, infos[|infos| - 1]);
        Handle(before, infos[|infos| - 1]).1
      else
        Handle(before, infos[|infos| - 1]).1
  }

  /** The last report in `infos` that is valid and names `id`, if there is one. */
  function LastAccepted(infos: seq<Information>, id: int): (r: Option<nat>)
    ensures r.Some? ==> r.value < |infos| && Accepted(infos[r.value]) && infos[r.value].id == id
    ensures r.Some? ==> forall i :: r.value < i < |infos| ==> !(Accepted(infos[i]) && infos[i].id == id)
    ensures r.None? <==> forall i :: 0 <= i < |infos| ==> !(Accepted(infos[i]) && infos[i].id == id)
  {
    if infos == [] then None
    else if Accepted(infos[|infos| - 1]) && infos[|infos| - 1].id == id then Some(|infos| - 1)
    else LastAccepted(infos[..|infos| - 1], id)
  }

  /**
   * One report seen from position `j` of a document whose ids are those of
   * `doc`: it merges into `j` exactly when it is valid, names `doc[j].id`, and
   * `j` is the first position with that id.
   */
  lemma HandleAtPosition(doc: seq<Facility>, before: seq<Facility>, info: Information, j: nat)
    requires j < |doc| == |before|
    requires forall i :: 0 <= i < |doc| ==> before[i].id == doc[i].id
    ensures Handle(before, info).1[j] ==
      if FirstMatch(doc, doc[j].id) == Some(j) && Accepted(info) && info.id == doc[j].id
      then Merge(before[j], PatchOf(info))
      else before[j]
  {
    FirstMatchOnlyReadsIds(doc, before, info.id);
  }

  /**
   * After a run of reports, the first record with an id holds the figures of
   * the last valid report for that id, or its own if there was none; no update
   * to another id is lost, and a record that is not the first with its id
   * never changes.
   */
  lemma {:induction false} ReplayLastWriterWins(doc: seq<Facility>, infos: seq<Information>, j: nat)
    requires j < |doc|
    ensures var r := Replay(doc, infos);
      var id := doc[j].id;
      if FirstMatch(doc, id) == Some(j) then
        match LastAccepted(infos, id)
        case None => r[j] == doc[j]
        case Some(k) => r[j] == Merge(doc[j], PatchOf(infos[k]))
      else r[j] == doc[j]
  {
    if infos != [] {
      var prefix := infos[..|infos| - 1];
      var last := infos[|infos| - 1];
      ReplayLastWriterWins(doc, prefix, j);
      HandleAtPosition(doc, Replay(doc, prefix), last, j);
      if !(Accepted(last) && last.id == doc[j].id) {
        assert LastAccepted(infos, doc[j].id) == LastAccepted(prefix, doc[j].id);
      }
    }
  }
}
