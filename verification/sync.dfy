/** The realtime list-synchronisation protocol shared by every client list:
    a change event is `created`, `updated` or `deleted`; each reducer applies
    one event to an in-memory list of `_id`-keyed records. Created records are
    inserted blindly, without looking for an item with the same `_id`. */
module Sync {
  import opened Common
  import Keyed

  /** Where a `created` reducer inserts: `[item, ...prev]` or `[...prev, item]`. */
  datatype Placement = Front | Back

  /** A change event with its payload: the full record for created/updated,
      the deletion payload `{ id }` for deleted. */
  datatype Change = Created(item: Record) | Updated(item: Record) | Deleted(notice: Record)

  /** The three event names a list listens to. */
  datatype EventNames = EventNames(created: string, updated: string, deleted: string)

  /** An event as it arrives on the channel: a name and an untyped payload. */
  datatype SocketEvent = SocketEvent(name: string, payload: Record)

  /** True when some record of `xs` has `_id` equal to `k`. */
  predicate Contains(xs: seq<Record>, k: Key)
  {
    Keyed.HasKey(xs, DocIdOf, k)
  }

  /** The handler for `created`: insert the record at the list's end of choice. */
  function ApplyCreated(xs: seq<Record>, p: Placement, item: Record): (r: seq<Record>)
    ensures |r| == |xs| + 1
    ensures p == Front ==> r[0] == item && r[1..] == xs
    ensures p == Back ==> r[|xs|] == item && r[..|xs|] == xs
  {
    match p
    case Front => Keyed.Prepend(xs, item)
    case Back => Keyed.Append(xs, item)
  }

  /** The handler for `updated`: `prev.map(item => item._id === u._id ? u : item)`. */
  function ApplyUpdated(xs: seq<Record>, u: Record): (r: seq<Record>)
    ensures |r| == |xs|
    ensures forall i :: 0 <= i < |xs| ==> r[i] == (if xs[i].docId == u.docId then u else xs[i])
  {
    Keyed.ReplaceByKey(xs, DocIdOf, u)
  }

  /** The handler for `deleted`: `prev.filter(item => item._id !== notice.id)`.
      Note the asymmetry of the source: items are matched on `_id`, the payload
      on its plain `id`. */
  function ApplyDeleted(xs: seq<Record>, notice: Record): (r: seq<Record>)
    ensures |r| <= |xs|
    ensures !Contains(r, notice.id)
    ensures forall x :: multiset(r)[x] == if x.docId == notice.id then 0 else multiset(xs)[x]
    ensures Keyed.IsSubsequence(r, xs)
  {
    Keyed.RemoveByKey(xs, DocIdOf, notice.id)
  }

  /** One change applied to a list. */
  function Apply(xs: seq<Record>, p: Placement, c: Change): seq<Record>
  {
    match c
    case Created(item) => ApplyCreated(xs, p, item)
    case Updated(item) => ApplyUpdated(xs, item)
    case Deleted(notice) => ApplyDeleted(xs, notice)
  }

  /** A log of changes applied in delivery order. */
  function ApplyAll(xs: seq<Record>, p: Placement, cs: seq<Change>): seq<Record>
    decreases |cs|
  {
    if cs == [] then xs else ApplyAll(Apply(xs, p, cs[0]), p, cs[1..])
  }

  /** Classifies an incoming event by its name; names no handler is registered
      for yield `None`. */
  function Classify(names: EventNames, ev: SocketEvent): (r: Option<Change>)
    ensures ev.name == names.created ==> r == Some(Created(ev.payload))
    ensures ev.name != names.created && ev.name == names.updated ==> r == Some(Updated(ev.payload))
    ensures (ev.name != names.created && ev.name != names.updated && ev.name == names.deleted)
      ==> r == Some(Deleted(ev.payload))
    ensures r.None? <==> ev.name !in {names.created, names.updated, names.deleted}
  {
    if ev.name == names.created then Some(Created(ev.payload))
    else if ev.name == names.updated then Some(Updated(ev.payload))
    else if ev.name == names.deleted then Some(Deleted(ev.payload))
    else None
  }

  /** An event delivered to a list: applied when its name is one of the three
      listened-to names, ignored otherwise. */
  function Deliver(xs: seq<Record>, names: EventNames, p: Placement, ev: SocketEvent): (r: seq<Record>)
    ensures ev.name == names.created ==> r == ApplyCreated(xs, p, ev.payload)
    ensures ev.name != names.created && ev.name == names.updated ==> r == ApplyUpdated(xs, ev.payload)
    ensures ev.name != names.created && ev.name != names.updated && ev.name == names.deleted
            ==> r == ApplyDeleted(xs, ev.payload)
    ensures ev.name != names.created && ev.name != names.updated && ev.name != names.deleted ==> r == xs
  {
    match Classify(names, ev)
    case Some(c) => Apply(xs, p, c)
    case None => xs
  }

  /** Splitting a log splits its application. */
  lemma {:induction false} ApplyAllConcat(xs: seq<Record>, p: Placement, a: seq<Change>, b: seq<Change>)
    ensures ApplyAll(xs, p, a + b) == ApplyAll(ApplyAll(xs, p, a), p, b)
    decreases |a|
  {
    if a != [] {
      assert (a + b)[0] == a[0];
      assert (a + b)[1..] == a[1..] + b;
      ApplyAllConcat(Apply(xs, p, a[0]), p, a[1..], b);
    } else {
      assert a + b == b;
    }
  }

  /** An `updated` event never introduces an `_id` that was absent: it only
      overwrites items that already carry the update's `_id`. */
  lemma UpdateKeepsAbsence(xs: seq<Record>, u: Record, k: Key)
    requires !Contains(xs, k)
    ensures !Contains(ApplyUpdated(xs, u), k)
  {
    Keyed.ReplaceKeepsKeys(xs, DocIdOf, u, k);
  }

  /** Once no item carries `_id` `k`, later events keep it that way unless one
      of them creates a record with that `_id`. */
  lemma {:induction false} AbsencePersists(xs: seq<Record>, p: Placement, cs: seq<Change>, k: Key)
    requires !Contains(xs, k)
    requires forall j :: 0 <= j < |cs| && cs[j].Created? ==> cs[j].item.docId != k
    ensures !Contains(ApplyAll(xs, p, cs), k)
    decreases |cs|
  {
    if cs != [] {
      var next := Apply(xs, p, cs[0]);
      match cs[0] {
      case Created(item) =>
        assert item.docId != k;
      case Updated(u) => UpdateKeepsAbsence(xs, u, k);
      case Deleted(notice) =>
      }
      assert !Contains(next, k);
      AbsencePersists(next, p, cs[1..], k);
    }
  }

  /** The last word on an `_id` is a deletion: if a `deleted` event for `_id` `k`
      is followed by no `created` event with that `_id`, the list ends with no
      item carrying it, whatever came before and whatever updates follow. */
  lemma LastDeleteWins(xs: seq<Record>, p: Placement, cs: seq<Change>, n: int)
    requires 0 <= n < |cs| && cs[n].Deleted?
    requires forall j :: n < j < |cs| && cs[j].Created? ==> cs[j].item.docId != cs[n].notice.id
    ensures !Contains(ApplyAll(xs, p, cs), cs[n].notice.id)
  {
    var k := cs[n].notice.id;
    var before, rest, after := cs[..n], cs[n..], cs[n + 1..];
    assert cs == before + rest;
    ApplyAllConcat(xs, p, before, rest);
    var mid := ApplyAll(xs, p, before);
    assert rest[0] == cs[n] && rest[1..] == after;
    assert ApplyAll(mid, p, rest) == ApplyAll(Apply(mid, p, cs[n]), p, after);
    forall j | 0 <= j < |after| && after[j].Created? ensures after[j].item.docId != k {
      assert after[j] == cs[n + 1 + j];
    }
    AbsencePersists(Apply(mid, p, cs[n]), p, after, k);
  }

  /** The create, update, delete life cycle of one record leaves no trace of it
      in the list. */
  lemma CreateUpdateDeleteLeavesNoTrace(xs: seq<Record>, p: Placement, created: Record, updated: Record, k: string)
    requires created.docId == Some(k) && updated.docId == Some(k)
    ensures !Contains(ApplyAll(xs, p, [Created(created), Updated(updated), Deleted(DeletionNotice(k))]), Some(k))
  {
    LastDeleteWins(xs, p, [Created(created), Updated(updated), Deleted(DeletionNotice(k))], 2);
  }

  /** Created events are not deduplicated: delivering the same record twice
      yields two more items carrying its `_id`. */
  lemma {:induction false} CreatedTwiceDuplicates(xs: seq<Record>, p: Placement, item: Record)
    ensures var r := ApplyAll(xs, p, [Created(item), Created(item)]);
            Keyed.CountKey(r, DocIdOf, item.docId) == Keyed.CountKey(xs, DocIdOf, item.docId) + 2
  {
    var once := ApplyCreated(xs, p, item);
    var twice := ApplyCreated(once, p, item);
    var log := [Created(item), Created(item)];
    assert ApplyAll(xs, p, log) == ApplyAll(once, p, [Created(item)]) by {
      assert log[1..] == [Created(item)];
    }
    assert ApplyAll(once, p, [Created(item)]) == ApplyAll(twice, p, []) by {
      assert [Created(item)][1..] == [];
    }
    CountAfterCreate(xs, p, item, item.docId);
    CountAfterCreate(once, p, item, item.docId);
  }

  /** Inserting a record adds one occurrence of its `_id` and none of any other. */
  lemma {:induction false} CountAfterCreate(xs: seq<Record>, p: Placement, item: Record, k: Key)
    ensures Keyed.CountKey(ApplyCreated(xs, p, item), DocIdOf, k)
            == Keyed.CountKey(xs, DocIdOf, k) + (if item.docId == k then 1 else 0)
  {
    if p == Front {
      assert ApplyCreated(xs, p, item)[1..] == xs;
    } else {
      CountAppend(xs, item, k);
    }
  }

  lemma {:induction false} CountAppend(xs: seq<Record>, item: Record, k: Key)
    ensures Keyed.CountKey(xs + [item], DocIdOf, k)
            == Keyed.CountKey(xs, DocIdOf, k) + (if item.docId == k then 1 else 0)
    decreases |xs|
  {
    if xs != [] {
      assert (xs + [item])[1..] == xs[1..] + [item];
      CountAppend(xs[1..], item, k);
    } else {
      assert [item][1..] == [];
    }
  }
}
