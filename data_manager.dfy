/**
 * `DataManager`: the CoreData record store, abstracted to a sequence of records. Each
 * record has the fields of the `TasksEntity` entity; category and priority are stored as
 * raw strings, and there is no description field. Randomly generated ids (`UUID()`) are a
 * parameter, and `fetchFails` stands for a fetch request that throws.
 */
module DataManager {
  import opened Options
  import opened Sequences
  import opened TaskModel
  import Categories
  import Priorities

  /** One `TasksEntity` row. */
  datatype Record = Record(text: string, time: Date, id: Uuid, category: string, priority: string,
                           isCompleted: bool)

  /** The body of `fetchTask`'s `compactMap`: nil unless both strings name an enum case. */
  function Decode(r: Record): (t: Option<Task>)
    ensures t.Some? <==> Categories.FromRaw(r.category).Some? && Priorities.FromRaw(r.priority).Some?
    ensures t.Some? ==> t.value.id == r.id && t.value.title == r.text && t.value.dueDate == r.time
    ensures t.Some? ==> t.value.isCompleted == r.isCompleted && t.value.description == None
    ensures t.Some? ==> Categories.RawValue(t.value.category) == r.category
    ensures t.Some? ==> Priorities.RawValue(t.value.priority) == r.priority
  {
    match (Categories.FromRaw(r.category), Priorities.FromRaw(r.priority))
    case (Some(category), Some(priority)) =>
      Some(Task(r.id, r.text, r.time, category, r.isCompleted, priority))
    case _ => None
  }

  predicate Decodable(r: Record) {
    Decode(r).Some?
  }

  /**
   * The `compactMap` of `fetchTask`: the decodable records, decoded, in store order;
   * every other record is dropped.
   */
  function DecodeAll(rs: seq<Record>): (ts: seq<Task>)
    ensures |ts| <= |rs|
    ensures forall t :: t in ts ==> exists r :: r in rs && Decode(r) == Some(t)
  {
    if rs == [] then []
    else
      match Decode(rs[0])
      case Some(t) => [t] + DecodeAll(rs[1..])
      case None => DecodeAll(rs[1..])
  }

  /** The records the request `id == %@` fetches. */
  function WithId(rs: seq<Record>, id: Uuid): (found: seq<Record>)
    ensures |found| <= |rs|
    ensures forall r :: r in found <==> r in rs && r.id == id
  {
    Filter(rs, (r: Record) => r.id == id)
  }

  /** The records that survive deleting every record with `id`. */
  function WithoutId(rs: seq<Record>, id: Uuid): seq<Record> {
    Filter(rs, (r: Record) => r.id != id)
  }

  /** What `deleteTask(id:)` leaves in the store. */
  function AfterDelete(rs: seq<Record>, id: Uuid, fetchFails: bool): (kept: seq<Record>)
    ensures fetchFails ==> kept == rs
    ensures !fetchFails ==> forall r :: r in kept <==> r in rs && r.id != id
  {
    if fetchFails then rs else WithoutId(rs, id)
  }

  class RecordStore {
    var records: seq<Record>

    constructor (initial: seq<Record>)
      ensures records == initial
    {
      records := initial;
    }

    /** No stored record carries `id`. */
    predicate Unused(id: Uuid)
      reads this
    {
      forall r :: r in records ==> r.id != id
    }

    /** `saveTask`: inserts one record under the freshly generated id `freshId`. */
    method SaveTask(freshId: Uuid, name: string, date: Date, category: string, priority: string,
                    isCompleted: bool)
      requires Unused(freshId)
      modifies this
      ensures records == old(records) + [Record(name, date, freshId, category, priority, isCompleted)]
    {
      records := records + [Record(name, date, freshId, category, priority, isCompleted)];
    }

    /** `deleteTask(id:)`: fetches the records with `id` and deletes them one by one. */
    method DeleteTask(id: Uuid, fetchFails: bool)
      modifies this
      ensures records == AfterDelete(old(records), id, fetchFails)
    {
      if fetchFails {
        return;
      }
      var toDelete := WithId(records, id);
      if toDelete == [] {
        NothingFetched(records, id);
        return;
      }
      ghost var initial := records;
      var i := 0;
      while i < |toDelete|
        invariant 0 <= i <= |toDelete|
        invariant toDelete == WithId(initial, id)
        invariant multiset(records) + multiset(toDelete[..i]) == multiset(initial)
        invariant WithoutId(records, id) == WithoutId(initial, id)
      {
        var victim := toDelete[i];
        DeleteStep(initial, records, id, i);
        RemoveMatchKeepsOthers(records, victim, id);
        records := RemoveFirst(records, victim);
        i := i + 1;
      }
      DeleteDone(initial, records, id, i);
    }

    /** `fetchTask`: the decoded records, or nothing when the fetch throws. */
    function FetchTask(fetchFails: bool): (ts: seq<Task>)
      reads this
      ensures fetchFails ==> ts == []
      ensures |ts| <= |records|
      ensures forall t :: t in ts ==> exists r :: r in records && Decode(r) == Some(t)
    {
      if fetchFails then [] else DecodeAll(records)
    }
  }

  lemma {:induction false} WithoutIdNoMatch(rs: seq<Record>, id: Uuid)
    requires forall r :: r in rs ==> r.id != id
    ensures WithoutId(rs, id) == rs
  {
    FilterKeepsAll(rs, (r: Record) => r.id != id);
  }

  /** The fetch request returns every copy of a matching record. */
  lemma {:induction false} WithIdHasAllCopies(rs: seq<Record>, id: Uuid, x: Record)
    requires x.id == id
    ensures multiset(WithId(rs, id))[x] == multiset(rs)[x]
  {
    if rs != [] {
      WithIdHasAllCopies(rs[1..], id, x);
      assert rs == [rs[0]] + rs[1..];
    }
  }

  /** The `i`-th fetched record is still in the store when the loop reaches it. */
  lemma DeleteStep(initial: seq<Record>, rs: seq<Record>, id: Uuid, i: nat)
    requires i < |WithId(initial, id)|
    requires multiset(rs) + multiset(WithId(initial, id)[..i]) == multiset(initial)
    ensures WithId(initial, id)[i] in rs && WithId(initial, id)[i].id == id
    ensures multiset(RemoveFirst(rs, WithId(initial, id)[i])) + multiset(WithId(initial, id)[..i + 1])
         == multiset(initial)
  {
    var toDelete := WithId(initial, id);
    assert toDelete[i] in toDelete;
    WithIdHasAllCopies(initial, id, toDelete[i]);
    NextStillPresent(rs, toDelete, i, multiset(initial));
  }

  /** An empty fetch result means that deleting is a no-op. */
  lemma NothingFetched(rs: seq<Record>, id: Uuid)
    requires WithId(rs, id) == []
    ensures rs == WithoutId(rs, id)
  {
    WithoutIdNoMatch(rs, id);
  }

  /** Once every fetched record is deleted, exactly the records without `id` remain. */
  lemma DeleteDone(initial: seq<Record>, rs: seq<Record>, id: Uuid, n: nat)
    requires n == |WithId(initial, id)|
    requires multiset(rs) + multiset(WithId(initial, id)[..n]) == multiset(initial)
    requires WithoutId(rs, id) == WithoutId(initial, id)
    ensures rs == WithoutId(initial, id)
  {
    assert WithId(initial, id)[..n] == WithId(initial, id);
    forall r | r in rs
      ensures r.id != id
    {
      if r.id == id {
        WithIdHasAllCopies(initial, id, r);
        assert false;
      }
    }
    WithoutIdNoMatch(rs, id);
  }

  /** Deleting one matching record leaves the non-matching records as they were. */
  lemma {:induction false} RemoveMatchKeepsOthers(rs: seq<Record>, x: Record, id: Uuid)
    requires x.id == id
    ensures WithoutId(RemoveFirst(rs, x), id) == WithoutId(rs, id)
  {
    if rs != [] && rs[0] != x {
      RemoveMatchKeepsOthers(rs[1..], x, id);
      assert RemoveFirst(rs, x) == [rs[0]] + RemoveFirst(rs[1..], x);
      assert ([rs[0]] + RemoveFirst(rs[1..], x))[1..] == RemoveFirst(rs[1..], x);
    }
  }

  /** `fetchTask` keeps exactly the decodable records, in store order, and decodes each. */
  lemma {:induction false} DecodeAllIsFilterThenDecode(rs: seq<Record>)
    ensures DecodesPointwise(Filter(rs, Decodable), DecodeAll(rs))
  {
    if rs != [] {
      DecodeAllIsFilterThenDecode(rs[1..]);
      if Decodable(rs[0]) {
        assert Filter(rs, Decodable) == [rs[0]] + Filter(rs[1..], Decodable);
        assert DecodeAll(rs) == [Decode(rs[0]).value] + DecodeAll(rs[1..]);
        DecodesPointwiseCons(rs[0], Filter(rs[1..], Decodable), DecodeAll(rs[1..]));
      } else {
        assert Filter(rs, Decodable) == Filter(rs[1..], Decodable);
      }
    }
  }

  /** Position by position, `tasks` is the decoding of `rs`. */
  ghost predicate DecodesPointwise(rs: seq<Record>, tasks: seq<Task>) {
    |rs| == |tasks| && forall i :: 0 <= i < |rs| ==> Decode(rs[i]) == Some(tasks[i])
  }

  lemma DecodesPointwiseCons(r: Record, rs: seq<Record>, tasks: seq<Task>)
    requires Decodable(r) && DecodesPointwise(rs, tasks)
    ensures DecodesPointwise([r] + rs, [Decode(r).value] + tasks)
  {
    forall i | 1 <= i < |rs| + 1
      ensures Decode(([r] + rs)[i]) == Some(([Decode(r).value] + tasks)[i])
    {
      assert ([r] + rs)[i] == rs[i - 1];
    }
  }

  /** `fetchTask` yields one task per decodable record, wherever the records stand. */
  lemma DecodeCountsDecodableRecords(rs: seq<Record>)
    ensures |DecodeAll(rs)| == |Filter(rs, Decodable)|
  {
    DecodeAllIsFilterThenDecode(rs);
  }

  /** A store of `valid` decodable records followed by `invalid` undecodable ones yields `valid` tasks. */
  lemma DecodeCountsValidRecords(valid: seq<Record>, invalid: seq<Record>)
    requires forall r :: r in valid ==> Decodable(r)
    requires forall r :: r in invalid ==> !Decodable(r)
    ensures |DecodeAll(valid + invalid)| == |valid|
  {
    DecodeCountsDecodableRecords(valid + invalid);
    FilterAppend(valid, invalid, Decodable);
    FilterKeepsAll(valid, Decodable);
    FilterKeepsNone(invalid, Decodable);
  }

  lemma {:induction false} DecodeAllAppend(rs: seq<Record>, more: seq<Record>)
    ensures DecodeAll(rs + more) == DecodeAll(rs) + DecodeAll(more)
  {
    if rs == [] {
      assert rs + more == more;
    } else {
      assert (rs + more)[1..] == rs[1..] + more;
      DecodeAllAppend(rs[1..], more);
    }
  }

  /** A record written with `category.id` and `priority.rawValue` decodes back to the same cases. */
  lemma SavedFieldsDecode(text: string, time: Date, id: Uuid, c: Categories.Category,
                          p: Priorities.Priority, isCompleted: bool)
    ensures Decode(Record(text, time, id, Categories.Id(c), Priorities.RawValue(p), isCompleted))
         == Some(Task(id, text, time, c, isCompleted, p, None))
  {
    Categories.IdDecodes(c);
    Priorities.RoundTrip(p);
  }

  /** Deleting an id that no record carries leaves the store unchanged. */
  lemma DeleteAbsentIdIsNoop(rs: seq<Record>, id: Uuid, fetchFails: bool)
    requires forall r :: r in rs ==> r.id != id
    ensures AfterDelete(rs, id, fetchFails) == rs
  {
    WithoutIdNoMatch(rs, id);
  }
}
