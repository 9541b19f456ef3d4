/**
 * The hosted entity store, as an in-memory table per record kind: `create`
 * assigns a fresh identifier, `update` merges a partial payload into the
 * stored record, `delete` removes it, and `list` returns every row. A call
 * against an identifier that is not stored fails and changes nothing.
 */
module EntityStore {
  import opened Wrappers

  type Id = nat

  /** A stored record together with the identifier the store gave it. */
  datatype Entry<R> = Entry(id: Id, rec: R)

  /** The record being edited in an admin form; no identifier means "not yet persisted". */
  datatype Draft<R> = Draft(id: Option<Id>, rec: R)

  /** One `update(id, data)` call. */
  datatype UpdateCall<P> = UpdateCall(id: Id, patch: P)

  /** A single mutation a handler issues against the store. */
  datatype Call<R, P> = Create(rec: R) | Update(id: Id, patch: P) | Delete(id: Id)

  /** `s` is a `list()` result for `rows`: every row exactly once, in an order the store picks. */
  ghost predicate IsListing<R>(s: seq<Entry<R>>, rows: map<Id, R>)
  {
    && (forall i, j :: 0 <= i < j < |s| ==> s[i].id != s[j].id)
    && (forall i :: 0 <= i < |s| ==> s[i].id in rows && rows[s[i].id] == s[i].rec)
    && (forall id :: id in rows ==> exists i :: 0 <= i < |s| && s[i].id == id)
  }

  /** Overwriting one listed row keeps the listing in step with the table. */
  lemma ListingOverwrite<R>(s: seq<Entry<R>>, rows: map<Id, R>, k: nat, r: R)
    requires IsListing(s, rows) && k < |s|
    ensures IsListing(s[k := Entry(s[k].id, r)], rows[s[k].id := r])
  {
    var t := s[k := Entry(s[k].id, r)];
    var after := rows[s[k].id := r];
    forall id | id in after ensures exists i :: 0 <= i < |t| && t[i].id == id {
      var i :| 0 <= i < |s| && s[i].id == id;
      assert t[i].id == id;
    }
  }

  /** The rows after one update call: a merge when the id is stored, nothing otherwise. */
  function ApplyUpdate<R, P>(rows: map<Id, R>, call: UpdateCall<P>, merge: (R, P) -> R): (r: map<Id, R>)
    ensures r.Keys == rows.Keys
  {
    if call.id in rows then rows[call.id := merge(rows[call.id], call.patch)] else rows
  }

  /** The rows after the update calls, issued one after the other. */
  function ApplyUpdates<R, P>(rows: map<Id, R>, calls: seq<UpdateCall<P>>, merge: (R, P) -> R): (r: map<Id, R>)
    ensures r.Keys == rows.Keys
  {
    if calls == [] then rows else ApplyUpdates(ApplyUpdate(rows, calls[0], merge), calls[1..], merge)
  }

  /** An update of a listed row merges the payload into the record the listing shows, and the listing follows. */
  lemma UpdateListed<R, P>(s: seq<Entry<R>>, rows: map<Id, R>, k: nat, p: P, merge: (R, P) -> R)
    requires IsListing(s, rows) && k < |s|
    ensures ApplyUpdate(rows, UpdateCall(s[k].id, p), merge) == rows[s[k].id := merge(s[k].rec, p)]
    ensures IsListing(s[k := Entry(s[k].id, merge(s[k].rec, p))], ApplyUpdate(rows, UpdateCall(s[k].id, p), merge))
  {
    ListingOverwrite(s, rows, k, merge(s[k].rec, p));
  }

  /** One and two update calls, written out. */
  lemma ApplyUpdatesPair<R, P>(rows: map<Id, R>, c0: UpdateCall<P>, c1: UpdateCall<P>, merge: (R, P) -> R)
    ensures ApplyUpdates(rows, [c0], merge) == ApplyUpdate(rows, c0, merge)
    ensures ApplyUpdates(rows, [c0, c1], merge) == ApplyUpdate(ApplyUpdate(rows, c0, merge), c1, merge)
  {
    assert [c0][1..] == [] && [c1][1..] == [];
    assert [c0, c1][1..] == [c1];
    var once := ApplyUpdate(rows, c0, merge);
    assert ApplyUpdates(rows, [c0, c1], merge) == ApplyUpdates(once, [c1], merge);
    assert ApplyUpdates(once, [c1], merge) == ApplyUpdate(once, c1, merge);
  }

  /** Whether the call can succeed against `rows`: `create` always can, the others need a stored id. */
  predicate Succeeds<R, P>(rows: map<Id, R>, call: Call<R, P>)
  {
    match call
    case Create(_) => true
    case Update(id, _) => id in rows
    case Delete(id) => id in rows
  }

  /** `after` is what the store holds once `call` has been issued against `before`. */
  ghost predicate Performed<R, P>(before: map<Id, R>, after: map<Id, R>, call: Call<R, P>, merge: (R, P) -> R)
  {
    match call
    case Create(r) => exists id: Id :: id !in before && after == before[id := r]
    case Update(id, p) => after == ApplyUpdate(before, UpdateCall(id, p), merge)
    case Delete(id) => after == before - {id}
  }

  class Table<R, P> {
    var rows: map<Id, R>
    var nextId: Id
    /** How an `update` payload combines with the stored record. */
    const merge: (R, P) -> R

    ghost predicate Valid()
      reads this
    {
      forall id :: id in rows ==> id < nextId
    }

    constructor (merge: (R, P) -> R)
      ensures Valid() && rows == map[] && this.merge == merge
    {
      rows := map[];
      nextId := 0;
      this.merge := merge;
    }

    /** `create(fields)`: the record is stored under an identifier not in use. */
    method Create(r: R) returns (id: Id)
      requires Valid()
      modifies this
      ensures Valid()
      ensures id !in old(rows) && rows == old(rows)[id := r]
    {
      id := nextId;
      rows := rows[id := r];
      nextId := nextId + 1;
    }

    /** `update(id, data)`: merges the payload into the stored record; fails when `id` is not stored. */
    method Update(id: Id, patch: P) returns (ok: bool)
      requires Valid()
      modifies this
      ensures Valid()
      ensures ok <==> id in old(rows)
      ensures rows == ApplyUpdate(old(rows), UpdateCall(id, patch), merge)
    {
      ok := id in rows;
      if ok {
        rows := rows[id := merge(rows[id], patch)];
      }
    }

    /** `delete(id)`: removes the record; fails when `id` is not stored. */
    method Delete(id: Id) returns (ok: bool)
      requires Valid()
      modifies this
      ensures Valid()
      ensures ok <==> id in old(rows)
      ensures rows == old(rows) - {id}
    {
      ok := id in rows;
      rows := rows - {id};
    }

    /** Issues one call; `ok` is whether its promise resolves. */
    method Perform(call: Call<R, P>) returns (ok: bool)
      requires Valid()
      modifies this
      ensures Valid()
      ensures ok == Succeeds(old(rows), call)
      ensures Performed(old(rows), rows, call, merge)
    {
      match call
      case Create(r) =>
        var id := Create(r);
        ok := true;
      case Update(id, p) =>
        ok := Update(id, p);
      case Delete(id) =>
        ok := Delete(id);
    }

    /** `list()`: every stored record once; the order is not specified. */
    method List() returns (s: seq<Entry<R>>)
      requires Valid()
      ensures IsListing(s, rows)
    {
      s := [];
      var pending := rows.Keys;
      while pending != {}
        invariant pending <= rows.Keys
        invariant forall i, j :: 0 <= i < j < |s| ==> s[i].id != s[j].id
        invariant forall i :: 0 <= i < |s| ==> s[i].id in rows && s[i].id !in pending && rows[s[i].id] == s[i].rec
        invariant forall id :: id in rows && id !in pending ==> exists i :: 0 <= i < |s| && s[i].id == id
        decreases pending
      {
        var id :| id in pending;
        ghost var before := s;
        s := s + [Entry(id, rows[id])];
        pending := pending - {id};
        forall k | k in rows && k !in pending ensures exists i :: 0 <= i < |s| && s[i].id == k {
          if k == id {
            assert s[|s| - 1].id == k;
          } else {
            var i :| 0 <= i < |before| && before[i].id == k;
            assert s[i].id == k;
          }
        }
      }
    }
  }
}
