/** The favorites set of the product grid and the header's favorites badge,
    kept in step through local storage and the `favoritesChanged` event.

    The session below assumes the header's mount effect runs before the
    grid's, as it does when the header is rendered earlier in the page: the
    header reads the stored value and starts listening, then the grid loads
    and saves. */
module FavoritesSync {
  import opened Favorites
  import Header

  /** The grid's set, the value under the storage key, and the count the
      header shows. */
  datatype Session = Session(favorites: seq<ProductId>, stored: Stored, badge: int)

  /** The three agree: the storage holds the set, once each id, and the
      badge holds its size. */
  predicate Synced(s: Session) {
    && Distinct(s.favorites)
    && s.stored == Ids(s.favorites)
    && s.badge == |Elements(s.favorites)|
  }

  /** The sets the save effect sees while the grid mounts: the empty set of
      the first render, then the loaded set when the load effect replaced
      it (a new `Set` object, so the state always changes). */
  function MountStates(stored: Stored): (r: seq<seq<ProductId>>)
    ensures |r| > 0 && r[0] == []
    ensures forall i :: 0 <= i < |r| ==> Distinct(r[i])
    ensures r[|r| - 1] == Load([], stored)
    ensures |r| == (if stored.Ids? then 2 else 1)
  {
    if stored.Ids? then [[], Load([], stored)] else [[]]
  }

  /** The sizes the save effect broadcasts while the grid mounts. */
  function MountBroadcasts(stored: Stored): (r: seq<int>)
    ensures |r| == |MountStates(stored)|
    ensures forall i :: 0 <= i < |r| ==> r[i] == Save(MountStates(stored)[i]).broadcast
  {
    var states := MountStates(stored);
    seq(|states|, i requires 0 <= i < |states| => Save(states[i]).broadcast)
  }

  /** The page after mounting, starting from what the storage held: the grid
      has loaded, the storage holds what the last save wrote (`[]` when the
      old value was missing or unreadable), and the header's count went from
      the length of the stored list through every broadcast. */
  function Mount(stored: Stored): (s: Session)
    ensures Synced(s)
    ensures stored.Ids? ==> Elements(s.favorites) == Elements(stored.ids)
    ensures !stored.Ids? ==> s == Session([], Ids([]), 0)
  {
    var favorites := Load([], stored);
    var broadcasts := MountBroadcasts(stored);
    Session(favorites, Ids(Save(favorites).stored),
            Header.AfterEvents(Header.FavoritesCountOnMount(stored), broadcasts))
  }

  /** A click on a product's heart: the grid toggles the id, the save effect
      writes the new set and broadcasts its size, and the header takes that
      size as its count. */
  function Click(s: Session, id: ProductId): (r: Session)
    requires Distinct(s.favorites)
    ensures r.favorites == Toggle(s.favorites, id)
    ensures Synced(r)
  {
    var favorites := Toggle(s.favorites, id);
    var w := Save(favorites);
    Session(favorites, Ids(w.stored), Header.AfterEvents(s.badge, [w.broadcast]))
  }

  /** A run of clicks. */
  function Clicks(s: Session, ids: seq<ProductId>): (r: Session)
    requires Distinct(s.favorites)
    ensures Distinct(r.favorites)
    decreases |ids|
  {
    if |ids| == 0 then s else Clicks(Click(s, ids[0]), ids[1..])
  }

  /** However many hearts are clicked, storage and badge stay in step with
      the set. */
  lemma {:induction false} ClicksStaySynced(s: Session, ids: seq<ProductId>)
    requires Synced(s)
    ensures Synced(Clicks(s, ids))
    decreases |ids|
  {
    if |ids| > 0 {
      ClicksStaySynced(Click(s, ids[0]), ids[1..]);
    }
  }

  /** Clicking the same heart twice brings back the same favorites, and with
      them the same storage and badge. */
  lemma ClickTwice(s: Session, id: ProductId)
    requires Synced(s)
    ensures Elements(Click(Click(s, id), id).favorites) == Elements(s.favorites)
    ensures Click(Click(s, id), id).badge == s.badge
  {
    ToggleTwice(s.favorites, id);
    DistinctCardinality(s.favorites);
    DistinctCardinality(Click(Click(s, id), id).favorites);
  }

  /** In step, the badge shows exactly when some product is a favorite. */
  lemma BadgeShownIffFavorites(s: Session)
    requires Synced(s)
    ensures Header.FavoritesBadge(s.badge).Some? <==> |s.favorites| > 0
  {
    DistinctCardinality(s.favorites);
  }

  /** A reload reads back the set the session had: mounting again from the
      storage restores it exactly, in the same order. */
  lemma ReloadRestores(s: Session)
    requires Synced(s)
    ensures Mount(s.stored).favorites == s.favorites
    ensures Mount(s.stored) == s
  {
    SaveLoadRoundTrip(s.favorites, []);
  }

  /** A stored list with a repeated id: the header's first count is the
      list's length, but the grid's broadcast corrects it to the number of
      distinct ids. */
  lemma MountCorrectsRepeatedIds(id: ProductId)
    ensures Header.FavoritesCountOnMount(Ids([id, id])) == 2
    ensures Mount(Ids([id, id])).badge == 1
  {
    assert FromArray([id]) == [id];
    assert FromArray([id, id]) == [id];
  }
}
