/** The mock record store behind `servicesAPI`: a module-level array of
    service records that `create`, `update` and `delete` change in place,
    with linear `find`/`findIndex` scans by id. The simulated latency and the
    Promise wrapping are dropped; every operation is a synchronous method
    that returns its value or a not-found error. */
module ApiService {
  import opened ServiceModel

  datatype Option<T> = None | Some(value: T)

  function GetOr<T>(o: Option<T>, default: T): T
  {
    match o
    case Some(v) => v
    case None => default
  }

  /** The only failure the store reports: the rejection
      `{ message: 'Service not found' }`. */
  datatype Error = ServiceNotFound

  datatype Result<T> = Ok(value: T) | Err(error: Error)

  /** What `create` is given: the form's four fields. */
  datatype Draft = Draft(name: string, category: string, description: string, status: string)

  /** What `update` is given: any subset of a record's fields. An absent
      field is `None`; a supplied one overrides the stored value. */
  datatype Patch = Patch(
    id: Option<int>,
    name: Option<string>,
    category: Option<string>,
    description: Option<string>,
    status: Option<string>,
    createdAt: Option<string>)

  /** The five records the store starts with. */
  const MockServices: seq<Service> := [
    Service(1, "Website Development", "Development",
            "Full stack website development with React and Node.js", "active", "2025-04-10T14:30:00.000Z"),
    Service(2, "Mobile App Design", "Design",
            "UI/UX design for iOS and Android mobile application", "pending", "2025-04-15T09:45:00.000Z"),
    Service(3, "SEO Optimization", "Marketing",
            "Search engine optimization for existing website", "completed", "2025-04-05T11:20:00.000Z"),
    Service(4, "Logo Design", "Design",
            "Professional logo design for new brand", "active", "2025-04-12T16:15:00.000Z"),
    Service(5, "Content Writing", "Content",
            "Blog posts and article writing for company website", "active", "2025-04-18T13:10:00.000Z")
  ]

  /** `findIndex(s => s.id === id)`: the first position holding `id`, or -1. */
  function IndexOf(s: seq<Service>, id: int): (r: int)
    ensures -1 <= r < |s|
    ensures r == -1 <==> forall k :: 0 <= k < |s| ==> s[k].id != id
    ensures 0 <= r ==> s[r].id == id && forall k :: 0 <= k < r ==> s[k].id != id
  {
    if s == [] then -1
    else if s[0].id == id then 0
    else
      var r := IndexOf(s[1..], id);
      if r == -1 then -1 else r + 1
  }

  /** The linear scan `findIndex` performs. */
  method FindIndex(s: seq<Service>, id: int) returns (index: int)
    ensures index == IndexOf(s, id)
  {
    index := 0;
    while index < |s| && s[index].id != id
      invariant 0 <= index <= |s|
      invariant forall k :: 0 <= k < index ==> s[k].id != id
    {
      index := index + 1;
    }
    if index == |s| {
      index := -1;
    }
  }

  /** `{ ...current, ...patch }`. */
  function Merge(current: Service, patch: Patch): Service
  {
    Service(
      GetOr(patch.id, current.id),
      GetOr(patch.name, current.name),
      GetOr(patch.category, current.category),
      GetOr(patch.description, current.description),
      GetOr(patch.status, current.status),
      GetOr(patch.createdAt, current.createdAt))
  }

  /** The record `create` builds: the next id, the draft's fields, and the
      store's own timestamp. */
  function NewService(id: int, draft: Draft, now: string): Service
  {
    Service(id, draft.name, draft.category, draft.description, draft.status, now)
  }

  /** The store's contents after `create`. */
  function AfterCreate(s: seq<Service>, draft: Draft, now: string): seq<Service>
  {
    s + [NewService(|s| + 1, draft, now)]
  }

  /** The store's contents after `splice(index, 1)`. */
  function AfterDelete(s: seq<Service>, index: nat): seq<Service>
    requires index < |s|
  {
    s[..index] + s[index + 1..]
  }

  /** Ids are exactly 1, 2, ..., |s|, in order. */
  predicate IdsSequential(s: seq<Service>)
  {
    forall k :: 0 <= k < |s| ==> s[k].id == k + 1
  }

  /** No two records share an id. */
  predicate IdsUnique(s: seq<Service>)
  {
    forall i, j :: 0 <= i < j < |s| ==> s[i].id != s[j].id
  }

  /** The mutable store: `mockServices` as a sequence field that the
      state-changing methods reassign. */
  class ServiceStore {
    var services: seq<Service>

    constructor ()
      ensures services == MockServices
    {
      services := MockServices;
    }

    /** `getAll`: the whole store, in insertion order. */
    method GetAll() returns (all: seq<Service>)
      ensures all == services
    {
      all := services;
    }

    /** `getById`: the first record with this id, or `ServiceNotFound`. */
    method GetById(id: int) returns (r: Result<Service>)
      ensures r.Err? <==> forall k :: 0 <= k < |services| ==> services[k].id != id
      ensures r.Err? ==> r.error == ServiceNotFound
      ensures r.Ok? ==> r.value.id == id
      ensures r.Ok? ==> exists k :: 0 <= k < |services| && services[k] == r.value &&
                                    forall j :: 0 <= j < k ==> services[j].id != id
    {
      var index := FindIndex(services, id);
      if index == -1 {
        r := Err(ServiceNotFound);
      } else {
        r := Ok(services[index]);
      }
    }

    /** `create`: appends a record with id `length + 1` and the given timestamp. */
    method Create(draft: Draft, now: string) returns (created: Service)
      modifies this
      ensures created == NewService(|old(services)| + 1, draft, now)
      ensures services == AfterCreate(old(services), draft, now)
    {
      created := NewService(|services| + 1, draft, now);
      services := services + [created];
    }

    /** `update`: merges the patch into the first record with this id. */
    method Update(id: int, patch: Patch) returns (r: Result<Service>)
      modifies this
      ensures IndexOf(old(services), id) == -1 ==>
                r == Err(ServiceNotFound) && services == old(services)
      ensures IndexOf(old(services), id) != -1 ==>
                var index := IndexOf(old(services), id);
                r == Ok(Merge(old(services)[index], patch)) &&
                services == old(services)[index := r.value]
    {
      var index := FindIndex(services, id);
      if index != -1 {
        var updated := Merge(services[index], patch);
        services := services[index := updated];
        r := Ok(updated);
      } else {
        r := Err(ServiceNotFound);
      }
    }

    /** `delete`: removes the first record with this id and returns it. */
    method Delete(id: int) returns (r: Result<Service>)
      modifies this
      ensures IndexOf(old(services), id) == -1 ==>
                r == Err(ServiceNotFound) && services == old(services)
      ensures IndexOf(old(services), id) != -1 ==>
                var index := IndexOf(old(services), id);
                r == Ok(old(services)[index]) &&
                services == AfterDelete(old(services), index)
    {
      var index := FindIndex(services, id);
      if index != -1 {
        var deleted := services[index];
        services := services[..index] + services[index + 1..];
        r := Ok(deleted);
      } else {
        r := Err(ServiceNotFound);
      }
    }
  }

  /** The merged record takes every supplied field from the patch and keeps
      every other field of the stored record. */
  lemma MergeOverridesSupplied(current: Service, patch: Patch)
    ensures var m := Merge(current, patch);
      (m.id == if patch.id.Some? then patch.id.value else current.id) &&
      (m.name == if patch.name.Some? then patch.name.value else current.name) &&
      (m.category == if patch.category.Some? then patch.category.value else current.category) &&
      (m.description == if patch.description.Some? then patch.description.value else current.description) &&
      (m.status == if patch.status.Some? then patch.status.value else current.status) &&
      (m.createdAt == if patch.createdAt.Some? then patch.createdAt.value else current.createdAt)
  {
  }

  /** An update that does not supply `id` or `createdAt` preserves both. */
  lemma MergePreservesIdentity(current: Service, patch: Patch)
    requires patch.id.None? && patch.createdAt.None?
    ensures Merge(current, patch).id == current.id
    ensures Merge(current, patch).createdAt == current.createdAt
  {
  }

  /** Applying the same patch twice is the same as applying it once. */
  lemma MergeIdempotent(current: Service, patch: Patch)
    ensures Merge(Merge(current, patch), patch) == Merge(current, patch)
  {
  }

  /** Deleting at `index` shrinks the store by one and keeps the other
      records in their original relative order. */
  lemma {:induction false} AfterDeleteKeepsOrder(s: seq<Service>, index: nat)
    requires index < |s|
    ensures |AfterDelete(s, index)| == |s| - 1
    ensures forall k :: 0 <= k < index ==> AfterDelete(s, index)[k] == s[k]
    ensures forall k :: index <= k < |s| - 1 ==> AfterDelete(s, index)[k] == s[k + 1]
  {
  }

  /** While ids are exactly 1..n, `create` keeps them exactly 1..n+1. */
  lemma CreateKeepsIdsSequential(s: seq<Service>, draft: Draft, now: string)
    requires IdsSequential(s)
    ensures IdsSequential(AfterCreate(s, draft, now))
  {
  }

  lemma SequentialIdsAreUnique(s: seq<Service>)
    requires IdsSequential(s)
    ensures IdsUnique(s)
  {
  }

  /** Deleting any record but the last from a store with ids 1..n and then
      creating one gives the new record the id of the (still present) last
      record: `length + 1` does not yield a fresh id. */
  lemma DeleteThenCreateDuplicatesId(s: seq<Service>, index: nat, draft: Draft, now: string)
    requires IdsSequential(s)
    requires index < |s| - 1
    ensures var t := AfterCreate(AfterDelete(s, index), draft, now);
      |t| == |s| && t[|s| - 2].id == t[|s| - 1].id == |s| && !IdsUnique(t)
  {
    var d := AfterDelete(s, index);
    var t := AfterCreate(d, draft, now);
    assert d[|s| - 2] == s[|s| - 1];
    assert t[|s| - 2] == d[|s| - 2];
  }

  /** Deleting the last record of a store with ids 1..n and then creating
      one restores ids 1..n. */
  lemma DeleteLastThenCreateKeepsIdsSequential(s: seq<Service>, draft: Draft, now: string)
    requires IdsSequential(s) && |s| > 0
    ensures IdsSequential(AfterCreate(AfterDelete(s, |s| - 1), draft, now))
  {
    var d := AfterDelete(s, |s| - 1);
    assert d == s[..|s| - 1];
  }

  /** On the initial data: deleting record 1 and creating a record yields
      two records with id 5. */
  lemma MockDeleteThenCreateDuplicatesId(draft: Draft, now: string)
    ensures var t := AfterCreate(AfterDelete(MockServices, IndexOf(MockServices, 1)), draft, now);
      [t[3].id, t[4].id] == [5, 5] && !IdsUnique(t)
  {
    assert IdsSequential(MockServices);
    DeleteThenCreateDuplicatesId(MockServices, 0, draft, now);
  }

  /** After a successful `delete`, no record has the id exactly when no
      record after the deleted one shared it; only then do `getById` and a
      second `delete` of that id fail. */
  lemma {:induction false} DeleteRemovesId(s: seq<Service>, id: int)
    requires IndexOf(s, id) != -1
    ensures IndexOf(AfterDelete(s, IndexOf(s, id)), id) == -1 <==>
      forall k :: IndexOf(s, id) < k < |s| ==> s[k].id != id
  {
    var index := IndexOf(s, id);
    var d := AfterDelete(s, index);
    assert forall k :: 0 <= k < index ==> d[k] == s[k];
    assert forall k :: index <= k < |d| ==> d[k] == s[k + 1];
    if IndexOf(d, id) == -1 {
      forall k | index < k < |s|
        ensures s[k].id != id
      {
        assert s[k] == d[k - 1];
      }
    }
  }

  /** With unique ids, a deleted id is gone. */
  lemma UniqueDeletedIdIsGone(s: seq<Service>, id: int)
    requires IdsUnique(s) && IndexOf(s, id) != -1
    ensures IndexOf(AfterDelete(s, IndexOf(s, id)), id) == -1
  {
    DeleteRemovesId(s, id);
  }

  /** Without unique ids, a deleted id can still be found. */
  lemma DuplicateIdSurvivesDelete(a: Service, b: Service)
    requires a.id == b.id
    ensures IndexOf(AfterDelete([a, b], IndexOf([a, b], a.id)), a.id) == 0
  {
    assert AfterDelete([a, b], 0) == [b];
  }

  /** An update that does not supply `id` keeps the ids unique. */
  lemma UpdateKeepsIdsUnique(s: seq<Service>, index: nat, patch: Patch)
    requires IdsUnique(s) && index < |s| && patch.id.None?
    ensures IdsUnique(s[index := Merge(s[index], patch)])
  {
  }

  /** Delete keeps the ids unique. */
  lemma DeleteKeepsIdsUnique(s: seq<Service>, index: nat)
    requires IdsUnique(s) && index < |s|
    ensures IdsUnique(AfterDelete(s, index))
  {
    var d := AfterDelete(s, index);
    forall i, j | 0 <= i < j < |d|
      ensures d[i].id != d[j].id
    {
      var i' := if i < index then i else i + 1;
      var j' := if j < index then j else j + 1;
      assert d[i] == s[i'] && d[j] == s[j'];
    }
  }
}
