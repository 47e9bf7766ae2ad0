/** The favorites set kept by the home product grid.

    In the component the favorites are a JavaScript `Set` of product ids. A
    `Set` iterates in insertion order, and that order is what `[...favorites]`
    writes to local storage, so the set is modelled as the sequence of its
    elements in insertion order, without duplicates. Local storage holds the
    last list written under the key `tuneheaven_favorites`; reading it back
    yields a `Stored` value (the JSON text itself is not modelled). */
module Favorites {

  type ProductId = string

  /** No id occurs twice: the representation invariant of a `Set`. */
  predicate Distinct(s: seq<ProductId>) {
    forall i, j :: 0 <= i < j < |s| ==> s[i] != s[j]
  }

  /** The ids as a mathematical set. */
  function Elements(s: seq<ProductId>): set<ProductId> {
    set x | x in s
  }

  /** `set.delete(id)`: every occurrence of `id` is removed, the rest keeps
      its order. */
  function Without(s: seq<ProductId>, id: ProductId): (r: seq<ProductId>)
    ensures forall x :: x in r <==> x in s && x != id
    ensures id !in s ==> r == s
    ensures Distinct(s) ==> Distinct(r)
    ensures Distinct(s) && id in s ==> |r| == |s| - 1
  {
    if |s| == 0 then []
    else if s[0] == id then Without(s[1..], id)
    else
      var rest := Without(s[1..], id);
      DistinctCons(s[0], rest);
      [s[0]] + rest
  }

  /** Putting an absent id in front keeps a sequence duplicate-free. */
  lemma DistinctCons(x: ProductId, s: seq<ProductId>)
    ensures Distinct(s) && x !in s ==> Distinct([x] + s)
  {
    if Distinct(s) && x !in s {
      forall i, j | 0 <= i < j < |[x] + s|
        ensures ([x] + s)[i] != ([x] + s)[j]
      {
        if i > 0 {
          assert ([x] + s)[i] == s[i - 1];
        }
      }
    }
  }

  /** `toggleFavorite(productId)`: delete the id when it is present, add it
      at the end of the iteration order when it is absent. */
  function Toggle(favorites: seq<ProductId>, id: ProductId): (r: seq<ProductId>)
    ensures id in r <==> id !in favorites
    ensures forall x :: x != id ==> (x in r <==> x in favorites)
    ensures Distinct(favorites) ==> Distinct(r)
  {
    if id in favorites then Without(favorites, id) else favorites + [id]
  }

  /** Deleting an id after appending it, when it was absent, gives back the
      original sequence. */
  lemma {:induction false} WithoutAppended(s: seq<ProductId>, id: ProductId)
    requires id !in s
    ensures Without(s + [id], id) == s
    decreases |s|
  {
    if |s| == 0 {
      assert s + [id] == [id];
    } else {
      assert (s + [id])[1..] == s[1..] + [id];
      WithoutAppended(s[1..], id);
    }
  }

  /** Toggling the same id twice restores the membership of every id; when
      the id was absent it restores the iteration order as well. When the id
      was present it comes back at the end of the order. */
  lemma ToggleTwice(favorites: seq<ProductId>, id: ProductId)
    ensures Elements(Toggle(Toggle(favorites, id), id)) == Elements(favorites)
    ensures id !in favorites ==> Toggle(Toggle(favorites, id), id) == favorites
    ensures id in favorites ==>
      Toggle(Toggle(favorites, id), id) == Without(favorites, id) + [id]
  {
    if id !in favorites {
      WithoutAppended(favorites, id);
    }
  }

  /** A duplicate-free sequence has as many elements as its set. */
  lemma {:induction false} DistinctCardinality(s: seq<ProductId>)
    requires Distinct(s)
    ensures |Elements(s)| == |s|
    decreases |s|
  {
    if |s| > 0 {
      DistinctCardinality(s[1..]);
      assert Elements(s) == Elements(s[1..]) + {s[0]};
      assert s[0] !in Elements(s[1..]);
    }
  }

  /** Toggling changes the size of the set by exactly one. */
  lemma ToggleSize(favorites: seq<ProductId>, id: ProductId)
    requires Distinct(favorites)
    ensures |Elements(Toggle(favorites, id))| ==
      if id in favorites then |Elements(favorites)| - 1 else |Elements(favorites)| + 1
  {
    DistinctCardinality(favorites);
    DistinctCardinality(Toggle(favorites, id));
  }

  /** What the save effect produces: the list written to local storage and
      the `detail` of the `favoritesChanged` event it dispatches. */
  datatype Saved = Saved(stored: seq<ProductId>, broadcast: nat)

  /** The save effect, run after every change of the set: the stored list
      holds exactly the set's elements, once each, and the broadcast count
      is the set's size. */
  function Save(favorites: seq<ProductId>): (w: Saved)
    requires Distinct(favorites)
    ensures Distinct(w.stored)
    ensures Elements(w.stored) == Elements(favorites)
    ensures w.broadcast == |Elements(favorites)|
  {
    DistinctCardinality(favorites);
    Saved(favorites, |favorites|)
  }

  /** What reading the storage key yields. `Unreadable` covers an empty
      string (skipped as falsy), text `JSON.parse` rejects, and a parsed
      value that is not iterable (the `Set` constructor throws); all three
      end in the same `catch` or are skipped. */
  datatype Stored = Absent | Unreadable | Ids(ids: seq<ProductId>)

  /** `new Set(ids)`: the ids in order, each kept at its first occurrence. */
  function FromArray(ids: seq<ProductId>): (r: seq<ProductId>)
    ensures Distinct(r)
    ensures forall x :: x in r <==> x in ids
    ensures Distinct(ids) ==> r == ids
    ensures |r| <= |ids|
    decreases |ids|
  {
    if |ids| == 0 then []
    else
      var init := ids[..|ids| - 1];
      var last := ids[|ids| - 1];
      assert ids == init + [last];
      var r := FromArray(init);
      if last in r then r else r + [last]
  }

  /** The load effect, run once on mount over the initial set: stored ids
      replace the set; a missing or unreadable value leaves it as it was. */
  function Load(initial: seq<ProductId>, stored: Stored): (r: seq<ProductId>)
    ensures stored.Ids? ==> Distinct(r) && Elements(r) == Elements(stored.ids)
    ensures !stored.Ids? ==> r == initial
  {
    match stored
    case Ids(ids) => FromArray(ids)
    case _ => initial
  }

  /** Reading back what the save effect wrote gives the same set, in the
      same iteration order. */
  lemma SaveLoadRoundTrip(favorites: seq<ProductId>, initial: seq<ProductId>)
    requires Distinct(favorites)
    ensures Load(initial, Ids(Save(favorites).stored)) == favorites
  {
  }
}
