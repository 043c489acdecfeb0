/** Cost owners and their project shares. A personnel record (base value:
    annual salary) or an equipment record (base value: acquisition cost)
    is an owner; a share row assigns a percent of one owner's base value to
    one project title. Both kinds are kept the same way, one owner table
    and one share table each, so one `ShareLedger` class models either
    pair. Replacing an owner's shares deletes all of its rows and inserts
    one row per accepted payload entry; deleting an owner deletes its rows
    too; an unknown owner id is a 404 that changes nothing. */
module Shares {
  import opened Basics

  datatype Owner =
    | Person(id: int, name: string, department: string, salary: Option<int>)
    | Machine(id: int, name: string, acquisitionCost: Option<int>, acquisitionDate: string)
  {
    /** The value shares are taken of; a NULL salary or cost counts as 0. */
    function BaseValue(): (v: int)
      ensures this.Person? ==> (this.salary.None? ==> v == 0) && (this.salary.Some? ==> v == this.salary.value)
      ensures this.Machine? ==> (this.acquisitionCost.None? ==> v == 0)
                                && (this.acquisitionCost.Some? ==> v == this.acquisitionCost.value)
    {
      match this
      case Person(_, _, _, salary) => salary.GetOr(0)
      case Machine(_, _, cost, _) => cost.GetOr(0)
    }
  }

  /** One row of a share table; the column `percent` is nullable. */
  datatype ShareRow = ShareRow(ownerId: int, title: string, percent: Option<real>)

  /** A payload value as the handler sees it: null, something `float()`
      rejects, or a number. */
  datatype RawPercent = Null | Malformed | Number(value: real)

  /** The `shares` mapping of a request, title to percent, in order. */
  type Payload = seq<(string, RawPercent)>

  /** An entry survives the handler's three `continue`s. */
  predicate Accepted(v: RawPercent) {
    v.Number? && v.value > 0.0
  }

  /** The rows inserted for a payload, one per accepted entry, in payload
      order. */
  function NewRows(ownerId: int, payload: Payload): (rows: seq<ShareRow>)
    ensures |rows| <= |payload|
    ensures forall k :: 0 <= k < |rows| ==>
              rows[k].ownerId == ownerId && rows[k].percent.Some? && rows[k].percent.value > 0.0
    ensures forall r :: r in rows <==>
              exists i :: 0 <= i < |payload| && Accepted(payload[i].1)
                          && r == ShareRow(ownerId, payload[i].0, Some(payload[i].1.value))
  {
    if payload == [] then []
    else
      var init, e := payload[..|payload| - 1], payload[|payload| - 1];
      assert forall i :: 0 <= i < |init| ==> init[i] == payload[i];
      NewRows(ownerId, init) + (if Accepted(e.1) then [ShareRow(ownerId, e.0, Some(e.1.value))] else [])
  }

  /** The payload entries the handler keeps, in payload order. */
  function AcceptedEntries(payload: Payload): Payload {
    Filter(payload, (e: (string, RawPercent)) => Accepted(e.1))
  }

  /** The new rows are the accepted entries, one row each and in the same
      order, so their number is the number of accepted entries. */
  lemma {:induction false} NewRowsAreAcceptedEntries(ownerId: int, payload: Payload)
    ensures var rows, kept := NewRows(ownerId, payload), AcceptedEntries(payload);
            |rows| == |kept|
            && forall k :: 0 <= k < |rows| ==> rows[k] == ShareRow(ownerId, kept[k].0, Some(kept[k].1.value))
  {
    if payload != [] {
      var init, e := payload[..|payload| - 1], payload[|payload| - 1];
      NewRowsAreAcceptedEntries(ownerId, init);
      var rows, kept := NewRows(ownerId, payload), AcceptedEntries(payload);
      var rows', kept' := NewRows(ownerId, init), AcceptedEntries(init);
      if Accepted(e.1) {
        assert rows == rows' + [ShareRow(ownerId, e.0, Some(e.1.value))];
        assert kept == kept' + [e];
      } else {
        assert rows == rows' + [];
        assert kept == kept';
      }
    }
  }

  /** One more payload entry adds its row, if accepted, at the end. */
  lemma NewRowsStep(ownerId: int, payload: Payload, i: nat)
    requires i < |payload|
    ensures NewRows(ownerId, payload[..i + 1])
         == NewRows(ownerId, payload[..i])
            + (if Accepted(payload[i].1) then [ShareRow(ownerId, payload[i].0, Some(payload[i].1.value))] else [])
  {
    assert payload[..i + 1][..i] == payload[..i];
  }

  /** The rows of one owner, in table order. */
  function OwnedBy(rows: seq<ShareRow>, ownerId: int): (mine: seq<ShareRow>)
    ensures forall r :: r in mine <==> r in rows && r.ownerId == ownerId
  {
    Filter(rows, (r: ShareRow) => r.ownerId == ownerId)
  }

  /** The table after the bulk `DELETE ... WHERE owner = ownerId`. */
  function NotOwnedBy(rows: seq<ShareRow>, ownerId: int): (rest: seq<ShareRow>)
    ensures |rest| <= |rows|
  {
    Filter(rows, (r: ShareRow) => r.ownerId != ownerId)
  }

  /** A row survives the bulk delete exactly when it belongs to another
      owner. */
  lemma NotOwnedByMembers(rows: seq<ShareRow>, ownerId: int, r: ShareRow)
    ensures r in NotOwnedBy(rows, ownerId) <==> r in rows && r.ownerId != ownerId
  {
  }

  /** The table after a successful share replacement. */
  function Replaced(rows: seq<ShareRow>, ownerId: int, payload: Payload): seq<ShareRow> {
    NotOwnedBy(rows, ownerId) + NewRows(ownerId, payload)
  }

  /** A row is in the replaced table exactly when it is another owner's
      old row or one of the new rows. */
  lemma ReplacedMembers(rows: seq<ShareRow>, ownerId: int, payload: Payload, r: ShareRow)
    ensures r in Replaced(rows, ownerId, payload)
        <==> (r in rows && r.ownerId != ownerId) || r in NewRows(ownerId, payload)
  {
  }

  /** The index of the owner `.first()` finds, if any. */
  function FindOwner(owners: seq<Owner>, id: int): (r: Option<nat>)
    ensures r.Some? ==> r.value < |owners| && owners[r.value].id == id
    ensures r.None? <==> forall k :: 0 <= k < |owners| ==> owners[k].id != id
  {
    FirstWhere(owners, (o: Owner) => o.id == id)
  }

  /** Owner ids are primary keys. */
  predicate UniqueIds(owners: seq<Owner>) {
    forall i, j :: 0 <= i < j < |owners| ==> owners[i].id != owners[j].id
  }

  // ---------------------------------------------------------------------
  // What replacement and deletion do to the share table

  lemma {:induction false} OwnedByNone(rows: seq<ShareRow>, ownerId: int)
    requires forall k :: 0 <= k < |rows| ==> rows[k].ownerId != ownerId
    ensures OwnedBy(rows, ownerId) == []
  {
    FilterKeepsNone(rows, (r: ShareRow) => r.ownerId == ownerId);
  }

  lemma {:induction false} OwnedByAll(rows: seq<ShareRow>, ownerId: int)
    requires forall k :: 0 <= k < |rows| ==> rows[k].ownerId == ownerId
    ensures OwnedBy(rows, ownerId) == rows
  {
    FilterKeepsAll(rows, (r: ShareRow) => r.ownerId == ownerId);
  }

  /** Removing one owner's rows leaves every other owner's rows as they
      were, in the same order. */
  lemma {:induction false} OwnedByAfterDelete(rows: seq<ShareRow>, id: int, other: int)
    requires other != id
    ensures OwnedBy(NotOwnedBy(rows, id), other) == OwnedBy(rows, other)
  {
    if rows != [] {
      var init, last := rows[..|rows| - 1], rows[|rows| - 1];
      OwnedByAfterDelete(init, id, other);
      if last.ownerId != id {
        assert NotOwnedBy(rows, id) == NotOwnedBy(init, id) + [last];
        assert (NotOwnedBy(init, id) + [last])[..|NotOwnedBy(init, id)|] == NotOwnedBy(init, id);
      }
    }
  }

  /** After a replacement the owner's rows are exactly the accepted payload
      entries, in payload order. */
  lemma ReplacedOwnerRows(rows: seq<ShareRow>, ownerId: int, payload: Payload)
    ensures OwnedBy(Replaced(rows, ownerId, payload), ownerId) == NewRows(ownerId, payload)
  {
    var keep := (r: ShareRow) => r.ownerId == ownerId;
    FilterConcat(NotOwnedBy(rows, ownerId), NewRows(ownerId, payload), keep);
    OwnedByNone(NotOwnedBy(rows, ownerId), ownerId);
    OwnedByAll(NewRows(ownerId, payload), ownerId);
  }

  /** A replacement leaves every other owner's rows untouched. */
  lemma ReplacedOtherRows(rows: seq<ShareRow>, ownerId: int, payload: Payload, other: int)
    requires other != ownerId
    ensures OwnedBy(Replaced(rows, ownerId, payload), other) == OwnedBy(rows, other)
  {
    var keep := (r: ShareRow) => r.ownerId == other;
    FilterConcat(NotOwnedBy(rows, ownerId), NewRows(ownerId, payload), keep);
    OwnedByNone(NewRows(ownerId, payload), other);
    OwnedByAfterDelete(rows, ownerId, other);
  }

  /** Replacing twice with the same payload is replacing once: full
      replacement, not a merge. */
  lemma ReplacedIdempotent(rows: seq<ShareRow>, ownerId: int, payload: Payload)
    ensures Replaced(Replaced(rows, ownerId, payload), ownerId, payload) == Replaced(rows, ownerId, payload)
  {
    var drop := (r: ShareRow) => r.ownerId != ownerId;
    var kept, added := NotOwnedBy(rows, ownerId), NewRows(ownerId, payload);
    FilterConcat(kept, added, drop);
    FilterKeepsAll(kept, drop);
    FilterKeepsNone(added, drop);
    assert kept + [] == kept;
  }

  /** Deleting an owner's rows leaves none of them. */
  lemma NoRowsAfterDelete(rows: seq<ShareRow>, ownerId: int)
    ensures OwnedBy(NotOwnedBy(rows, ownerId), ownerId) == []
  {
    OwnedByNone(NotOwnedBy(rows, ownerId), ownerId);
  }

  /** Removing the owner at `k` from a table with unique ids leaves no row
      with that id and keeps ids unique. */
  lemma RemoveOwnerAt(owners: seq<Owner>, k: nat)
    requires UniqueIds(owners) && k < |owners|
    ensures var rest := owners[..k] + owners[k + 1..];
            UniqueIds(rest)
            && (forall j :: 0 <= j < |rest| ==> rest[j].id != owners[k].id)
            && (forall o :: o in rest <==> o in owners && o.id != owners[k].id)
  {
    var rest := owners[..k] + owners[k + 1..];
    assert forall j :: 0 <= j < |rest| ==> rest[j] == owners[if j < k then j else j + 1];
    forall o | o in owners && o.id != owners[k].id ensures o in rest {
      var i :| 0 <= i < |owners| && owners[i] == o;
      assert rest[if i < k then i else i - 1] == o;
    }
  }

  // ---------------------------------------------------------------------
  // The tables

  /** One owner table with its share table. */
  class ShareLedger {
    var owners: seq<Owner>
    var rows: seq<ShareRow>

    ghost predicate Valid()
      reads this
    {
      UniqueIds(owners)
    }

    constructor (owners0: seq<Owner>, rows0: seq<ShareRow>)
      requires UniqueIds(owners0)
      ensures Valid() && owners == owners0 && rows == rows0
    {
      owners, rows := owners0, rows0;
    }

    /** `update_personnel_shares` / `update_equipment_shares`: `found` is
        false for the 404, and then nothing changes. */
    method ReplaceShares(ownerId: int, payload: Payload) returns (found: bool)
      requires Valid()
      modifies this
      ensures Valid()
      ensures found <==> FindOwner(old(owners), ownerId).Some?
      ensures owners == old(owners)
      ensures rows == if found then Replaced(old(rows), ownerId, payload) else old(rows)
    {
      found := FindOwner(owners, ownerId).Some?;
      if !found {
        return;
      }
      // The delete and the inserts are staged in the session and reach
      // the table together at the commit.
      var kept := NotOwnedBy(rows, ownerId);
      var added: seq<ShareRow> := [];
      var i := 0;
      while i < |payload|
        invariant 0 <= i <= |payload|
        invariant owners == old(owners) && rows == old(rows)
        invariant added == NewRows(ownerId, payload[..i])
      {
        var (title, percent) := payload[i];
        NewRowsStep(ownerId, payload, i);
        match percent {
          case Null =>
          case Malformed =>
          case Number(v) =>
            if v > 0.0 {
              added := added + [ShareRow(ownerId, title, Some(v))];
            }
        }
        i := i + 1;
      }
      assert payload[..|payload|] == payload;
      rows := kept + added;
    }

    /** `delete_personnel` / `delete_equipment`: removes the owner and every
        row of its shares; `found` is false for the 404, and then nothing
        changes. */
    method DeleteOwner(ownerId: int) returns (found: bool)
      requires Valid()
      modifies this
      ensures Valid()
      ensures found <==> FindOwner(old(owners), ownerId).Some?
      ensures !found ==> owners == old(owners) && rows == old(rows)
      ensures found ==>
                var k := FindOwner(old(owners), ownerId).value;
                owners == old(owners)[..k] + old(owners)[k + 1..]
                && rows == NotOwnedBy(old(rows), ownerId)
      ensures forall k :: 0 <= k < |owners| ==> owners[k].id != ownerId
      ensures forall o :: o in owners <==> o in old(owners) && o.id != ownerId
    {
      match FindOwner(owners, ownerId) {
        case None =>
          found := false;
        case Some(k) =>
          RemoveOwnerAt(owners, k);
          rows := NotOwnedBy(rows, ownerId);
          owners := owners[..k] + owners[k + 1..];
          found := true;
      }
    }
  }
}
