/** `useAnnouncements` and `useSchools`: a `useApi` snapshot copied into a
    local list, kept current by the realtime events of one collection while
    the socket is connected. The two hooks differ only in their event names
    and in where a created record goes: announcements at the front, schools
    at the end. */
module CollectionHooks {
  import opened Common
  import Api
  import Sync

  const AnnouncementEvents := Sync.EventNames("announcement_created", "announcement_updated", "announcement_deleted")
  const SchoolEvents := Sync.EventNames("school_created", "school_updated", "school_deleted")

  /** A hook's state: its `useApi` state, its local list, and whether the
      socket reports a connection (listeners exist only while it does). */
  datatype ListHook = ListHook(api: Api.ApiState<seq<Record>>, items: seq<Record>, connected: bool)

  /** The effect on `data`: a non-null snapshot replaces the list wholesale
      (an empty array is truthy, so it empties the list); null leaves it. */
  function Snapshot(items: seq<Record>, data: Option<seq<Record>>): (r: seq<Record>)
    ensures data.Some? ==> r == data.value
    ensures data.None? ==> r == items
  {
    match data
    case Some(d) => d
    case None => items
  }

  /** One call of the hook's `fetchData` (no `forceRefetch` option is passed),
      followed by the `data` effect when the fetch actually ran. */
  function Fetch(h: ListHook, x: Api.Exchange<seq<Record>>): (r: ListHook)
    ensures h.api.hasFetched ==> r == h
    ensures !h.api.hasFetched ==> r.api == Api.FetchData(h.api, false, x) && r.connected == h.connected
    ensures !h.api.hasFetched && Api.Succeeded(x) && x.body.value.data.Some? ==> r.items == x.body.value.data.value
    ensures !h.api.hasFetched && !(Api.Succeeded(x) && x.body.value.data.Some?) ==> r.items == h.items
  {
    if h.api.hasFetched then h
    else
      var api := Api.FetchData(h.api, false, x);
      h.(api := api, items := Snapshot(h.items, api.data))
  }

  /** An event reaching `useAnnouncements`. */
  function OnAnnouncementEvent(h: ListHook, ev: Sync.SocketEvent): (r: ListHook)
    ensures r.api == h.api && r.connected == h.connected
    ensures !h.connected ==> r == h
    ensures h.connected && ev.name == "announcement_created" ==> r.items == [ev.payload] + h.items
    ensures h.connected && ev.name == "announcement_updated" ==> r.items == Sync.ApplyUpdated(h.items, ev.payload)
    ensures h.connected && ev.name == "announcement_deleted" ==> r.items == Sync.ApplyDeleted(h.items, ev.payload)
    ensures ev.name !in {"announcement_created", "announcement_updated", "announcement_deleted"} ==> r == h
  {
    if !h.connected then h
    else h.(items := Sync.Deliver(h.items, AnnouncementEvents, Sync.Front, ev))
  }

  /** An event reaching `useSchools`. */
  function OnSchoolEvent(h: ListHook, ev: Sync.SocketEvent): (r: ListHook)
    ensures r.api == h.api && r.connected == h.connected
    ensures !h.connected ==> r == h
    ensures h.connected && ev.name == "school_created" ==> r.items == h.items + [ev.payload]
    ensures h.connected && ev.name == "school_updated" ==> r.items == Sync.ApplyUpdated(h.items, ev.payload)
    ensures h.connected && ev.name == "school_deleted" ==> r.items == Sync.ApplyDeleted(h.items, ev.payload)
    ensures ev.name !in {"school_created", "school_updated", "school_deleted"} ==> r == h
  {
    if !h.connected then h
    else h.(items := Sync.Deliver(h.items, SchoolEvents, Sync.Back, ev))
  }

  /** A created announcement followed by the deletion of its `_id` leaves no
      announcement with that `_id`, whatever the list held before. */
  lemma AnnouncementCreateThenDelete(h: ListHook, item: Record, k: string)
    requires h.connected && item.docId == Some(k)
    ensures var created := OnAnnouncementEvent(h, Sync.SocketEvent("announcement_created", item));
            var deleted := OnAnnouncementEvent(created, Sync.SocketEvent("announcement_deleted", DeletionNotice(k)));
            !Sync.Contains(deleted.items, Some(k))
  {
  }

  /** The same for schools, whose created records go to the end. */
  lemma SchoolCreateThenDelete(h: ListHook, item: Record, k: string)
    requires h.connected && item.docId == Some(k)
    ensures var created := OnSchoolEvent(h, Sync.SocketEvent("school_created", item));
            var deleted := OnSchoolEvent(created, Sync.SocketEvent("school_deleted", DeletionNotice(k)));
            !Sync.Contains(deleted.items, Some(k))
  {
  }

  /** Applied to a connected hook, a log of announcement events has the
      effect of the corresponding changes, front insertion, in order. */
  lemma {:induction false} AnnouncementLog(h: ListHook, evs: seq<Sync.SocketEvent>, cs: seq<Sync.Change>)
    requires h.connected && |evs| == |cs|
    requires forall i :: 0 <= i < |evs| ==> Sync.Classify(AnnouncementEvents, evs[i]) == Some(cs[i])
    ensures DeliverAnnouncements(h, evs).items == Sync.ApplyAll(h.items, Sync.Front, cs)
    decreases |evs|
  {
    if evs != [] {
      AnnouncementLog(OnAnnouncementEvent(h, evs[0]), evs[1..], cs[1..]);
    }
  }

  /** Events delivered to `useAnnouncements` one after another. */
  function DeliverAnnouncements(h: ListHook, evs: seq<Sync.SocketEvent>): ListHook
    decreases |evs|
  {
    if evs == [] then h else DeliverAnnouncements(OnAnnouncementEvent(h, evs[0]), evs[1..])
  }
}
