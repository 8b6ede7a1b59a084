/**
 * The pure rules behind the slideshow store of App.tsx: the index arithmetic
 * of next/prev, the look-up and filter behind removal, the splice move behind
 * reordering and the per-item updates behind the dramatic toggle and the
 * overlay save. The class App.Slideshow applies them to its state.
 */
module MediaStore {
  import opened Types

  /** The current index is usable: inside the list when it is non-empty, 0 when it is empty. */
  predicate IndexInRange(i: nat, n: nat) {
    if n == 0 then i == 0 else i < n
  }

  // ----- next / prev -----

  /** Index after `next`: one step forward, wrapping from the last item to the first. */
  function NextIndex(i: nat, n: nat): (r: nat)
    ensures n <= 1 ==> r == i
    ensures 1 < n && i < n ==> r == if i == n - 1 then 0 else i + 1
  {
    if n > 1 then (i + 1) % n else i
  }

  /** Index after `prev`: one step back, wrapping from the first item to the last. */
  function PrevIndex(i: nat, n: nat): (r: nat)
    ensures n <= 1 ==> r == i
    ensures 1 < n && i < n ==> r == if i == 0 then n - 1 else i - 1
  {
    if n > 1 then (i - 1 + n) % n else i
  }

  /** `next` and `prev` keep the index usable and undo each other. */
  lemma NextPrevInverse(i: nat, n: nat)
    requires IndexInRange(i, n)
    ensures IndexInRange(NextIndex(i, n), n) && IndexInRange(PrevIndex(i, n), n)
    ensures PrevIndex(NextIndex(i, n), n) == i
    ensures NextIndex(PrevIndex(i, n), n) == i
  {
  }

  // ----- auto-advance -----

  /** A slide timer is pending exactly while playing a list of more than one item. */
  predicate AutoAdvanceArmed(isPlaying: bool, n: nat) {
    isPlaying && n > 1
  }

  /**
   * When the timer fires it performs `next`, which always shows another item:
   * the index changes and, ids being unique, so does the item on screen.
   * A list of one item is never advanced.
   */
  lemma AutoAdvanceShowsAnotherItem(s: seq<MediaFile>, isPlaying: bool, i: nat)
    requires UniqueIds(s) && IndexInRange(i, |s|)
    ensures |s| <= 1 ==> !AutoAdvanceArmed(isPlaying, |s|)
    ensures AutoAdvanceArmed(isPlaying, |s|) ==>
      NextIndex(i, |s|) < |s| && NextIndex(i, |s|) != i && s[NextIndex(i, |s|)].id != s[i].id
  {
  }

  // ----- removal -----

  /** JavaScript's `findIndex` on ids: the first position holding `id`, or -1. */
  function FindIndex(s: seq<MediaFile>, id: string): (r: int)
    ensures -1 <= r < |s|
    ensures r == -1 <==> !HasId(s, id)
    ensures r >= 0 ==> s[r].id == id && forall j :: 0 <= j < r ==> s[j].id != id
  {
    if s == [] then -1
    else if s[0].id == id then 0
    else
      var k := FindIndex(s[1..], id);
      if k == -1 then -1 else k + 1
  }

  /** JavaScript's `filter(m => m.id !== id)`: every item without that id, in order. */
  function Without(s: seq<MediaFile>, id: string): (r: seq<MediaFile>)
    ensures |r| <= |s|
    ensures forall x :: x in r ==> x in s && x.id != id
    ensures forall j :: 0 <= j < |s| && s[j].id != id ==> s[j] in r
  {
    if s == [] then []
    else if s[0].id == id then Without(s[1..], id)
    else [s[0]] + Without(s[1..], id)
  }

  /**
   * The filter works item by item: it distributes over concatenation, and a
   * single item is kept exactly when its id differs. Together these fix the
   * order and the number of copies of what is kept.
   */
  lemma {:induction false} WithoutAppend(a: seq<MediaFile>, b: seq<MediaFile>, id: string)
    ensures Without(a + b, id) == Without(a, id) + Without(b, id)
    ensures |a| == 1 ==> Without(a, id) == (if a[0].id == id then [] else a)
    decreases |a|
  {
    if a == [] {
      assert a + b == b;
    } else {
      assert (a + b)[0] == a[0];
      assert (a + b)[1..] == a[1..] + b;
      WithoutAppend(a[1..], b, id);
      if |a| == 1 {
        assert a[1..] == [];
      }
    }
  }

  /** Filtering out an id that is not there leaves the list as it was. */
  lemma {:induction false} WithoutAbsent(s: seq<MediaFile>, id: string)
    requires !HasId(s, id)
    ensures Without(s, id) == s
  {
    if s != [] {
      assert s[0].id != id;
      assert !HasId(s[1..], id);
      WithoutAbsent(s[1..], id);
      assert s == [s[0]] + s[1..];
    }
  }

  /** With unique ids, filtering out the id at position k removes exactly that one item. */
  lemma {:induction false} WithoutRemovesOne(s: seq<MediaFile>, id: string, k: nat)
    requires UniqueIds(s) && k < |s| && s[k].id == id
    ensures Without(s, id) == RemoveAt(s, k)
  {
    if k == 0 {
      assert !HasId(s[1..], id);
      WithoutAbsent(s[1..], id);
      assert RemoveAt(s, 0) == s[1..];
    } else {
      assert s[0].id != id by { assert s[0].id != s[k].id; }
      assert UniqueIds(s[1..]) by {
        forall i, j | 0 <= i < |s[1..]| && 0 <= j < |s[1..]| && i != j
          ensures s[1..][i].id != s[1..][j].id
        {
          assert s[1..][i] == s[i + 1] && s[1..][j] == s[j + 1];
        }
      }
      WithoutRemovesOne(s[1..], id, k - 1);
      assert RemoveAt(s, k) == [s[0]] + RemoveAt(s[1..], k - 1);
    }
  }

  /** Removing one item keeps the remaining ids unique. */
  lemma RemoveAtKeepsUniqueIds(s: seq<MediaFile>, k: nat)
    requires UniqueIds(s) && k < |s|
    ensures UniqueIds(RemoveAt(s, k))
    ensures !HasId(RemoveAt(s, k), s[k].id)
  {
    var r := RemoveAt(s, k);
    forall i, j | 0 <= i < |r| && 0 <= j < |r| && i != j
      ensures r[i].id != r[j].id
    {
      var si := if i < k then i else i + 1;
      var sj := if j < k then j else j + 1;
      assert r[i] == s[si] && r[j] == s[sj];
    }
  }

  /**
   * The current index after a removal at position `removed` leaves a list of
   * `newLength` items: 0 for an empty list, one step back (never below 0)
   * when the current slide was at or after the removed one, unchanged otherwise.
   */
  function IndexAfterRemoval(current: nat, removed: nat, newLength: nat): (r: nat)
    ensures current <= newLength && removed <= newLength ==> IndexInRange(r, newLength)
    ensures r <= current
  {
    if newLength == 0 then 0
    else if current >= removed then (if current - 1 > 0 then current - 1 else 0)
    else current
  }

  /**
   * Removing any item other than the current one keeps the same item on screen;
   * removing the current one shows its predecessor (the new first item when it was first).
   */
  lemma RemovalKeepsViewedItem(s: seq<MediaFile>, current: nat, k: nat)
    requires current < |s| && k < |s| && |s| > 1
    ensures IndexAfterRemoval(current, k, |s| - 1) < |s| - 1
    ensures k != current ==> RemoveAt(s, k)[IndexAfterRemoval(current, k, |s| - 1)] == s[current]
    ensures k == current && current > 0 ==> RemoveAt(s, k)[IndexAfterRemoval(current, k, |s| - 1)] == s[current - 1]
    ensures k == current == 0 ==> RemoveAt(s, k)[IndexAfterRemoval(current, k, |s| - 1)] == s[1]
  {
  }

  // ----- reordering -----

  /** `splice(k, 1)`: the list without its k-th element. */
  function RemoveAt<T>(s: seq<T>, k: nat): (r: seq<T>)
    requires k < |s|
    ensures |r| == |s| - 1
    ensures forall i :: 0 <= i < k ==> r[i] == s[i]
    ensures forall i :: k <= i < |r| ==> r[i] == s[i + 1]
  {
    s[..k] + s[k + 1..]
  }

  /** `splice(k, 0, x)`: the list with x inserted so that it lands at position k. */
  function InsertAt<T>(s: seq<T>, k: nat, x: T): (r: seq<T>)
    requires k <= |s|
    ensures |r| == |s| + 1 && r[k] == x
    ensures forall i :: 0 <= i < k ==> r[i] == s[i]
    ensures forall i :: k < i < |r| ==> r[i] == s[i - 1]
  {
    s[..k] + [x] + s[k..]
  }

  /** The drag-and-drop move: take the item at `from` out and put it back at `to`. */
  function Move<T>(s: seq<T>, from: nat, to: nat): (r: seq<T>)
    requires from < |s| && to < |s|
    ensures |r| == |s| && r[to] == s[from]
  {
    InsertAt(RemoveAt(s, from), to, s[from])
  }

  /** Inserting at k and then removing at k gives back the list. */
  lemma RemoveInsert<T>(s: seq<T>, k: nat, x: T)
    requires k <= |s|
    ensures RemoveAt(InsertAt(s, k, x), k) == s
  {
    var r := RemoveAt(InsertAt(s, k, x), k);
    assert forall i :: 0 <= i < |s| ==> r[i] == s[i];
  }

  /** Removing at k and putting the same element back at k gives back the list. */
  lemma InsertRemove<T>(s: seq<T>, k: nat)
    requires k < |s|
    ensures InsertAt(RemoveAt(s, k), k, s[k]) == s
  {
    var r := InsertAt(RemoveAt(s, k), k, s[k]);
    assert forall i :: 0 <= i < |s| ==> r[i] == s[i];
  }

  /** A move keeps every other item in its relative order. */
  lemma MoveKeepsOthersInOrder<T>(s: seq<T>, from: nat, to: nat)
    requires from < |s| && to < |s|
    ensures RemoveAt(Move(s, from, to), to) == RemoveAt(s, from)
  {
    RemoveInsert(RemoveAt(s, from), to, s[from]);
  }

  /** Moving an item back to where it came from restores the list. */
  lemma MoveRoundTrip<T>(s: seq<T>, from: nat, to: nat)
    requires from < |s| && to < |s|
    ensures Move(Move(s, from, to), to, from) == s
  {
    var r := Move(s, from, to);
    MoveKeepsOthersInOrder(s, from, to);
    InsertRemove(s, from);
  }

  /** A move is a permutation: the same items, each as many times. */
  lemma MovePermutes<T>(s: seq<T>, from: nat, to: nat)
    requires from < |s| && to < |s|
    ensures multiset(Move(s, from, to)) == multiset(s)
  {
    var u := RemoveAt(s, from);
    assert s == s[..from] + [s[from]] + s[from + 1..];
    assert multiset(s) == multiset(u) + multiset{s[from]};
    assert u == u[..to] + u[to..];
    assert Move(s, from, to) == u[..to] + [s[from]] + u[to..];
  }

  /** A move keeps the ids unique. */
  lemma MoveKeepsUniqueIds(s: seq<MediaFile>, from: nat, to: nat)
    requires UniqueIds(s) && from < |s| && to < |s|
    ensures UniqueIds(Move(s, from, to))
  {
    var u := RemoveAt(s, from);
    RemoveAtKeepsUniqueIds(s, from);
    var r := Move(s, from, to);
    forall i, j | 0 <= i < |r| && 0 <= j < |r| && i != j
      ensures r[i].id != r[j].id
    {
      if i != to && j != to {
        var ui := if i < to then i else i - 1;
        var uj := if j < to then j else j - 1;
        assert r[i] == u[ui] && r[j] == u[uj];
      } else {
        var o := if i == to then j else i;
        var uo := if o < to then o else o - 1;
        assert r[o] == u[uo];
      }
    }
  }

  // ----- per-item updates -----

  /** The dramatic flag of the items with `id` negated (absent counts as false). */
  function ToggleDramaticById(s: seq<MediaFile>, id: string): (r: seq<MediaFile>)
    ensures |r| == |s|
    ensures forall i :: 0 <= i < |s| && s[i].id != id ==> r[i] == s[i]
    ensures forall i :: 0 <= i < |s| && s[i].id == id ==>
      && r[i].isDramatic.Some?
      && (Dramatic(r[i]) <==> !Dramatic(s[i]))
      && r[i].(isDramatic := s[i].isDramatic) == s[i]
  {
    if s == [] then []
    else
      var head := if s[0].id == id then s[0].(isDramatic := Some(!Dramatic(s[0]))) else s[0];
      [head] + ToggleDramaticById(s[1..], id)
  }

  /** Toggling twice restores whether each item is dramatic and changes nothing else. */
  lemma ToggleTwiceRestores(s: seq<MediaFile>, id: string)
    ensures var r := ToggleDramaticById(ToggleDramaticById(s, id), id);
      |r| == |s| &&
      forall i :: 0 <= i < |s| ==>
        (Dramatic(r[i]) <==> Dramatic(s[i])) && r[i].(isDramatic := s[i].isDramatic) == s[i]
  {
  }

  /** The overlay text of the items with `id` replaced by `text`. */
  function SaveOverlayById(s: seq<MediaFile>, id: string, text: string): (r: seq<MediaFile>)
    ensures |r| == |s|
    ensures forall i :: 0 <= i < |s| && s[i].id != id ==> r[i] == s[i]
    ensures forall i :: 0 <= i < |s| && s[i].id == id ==>
      r[i].overlayText == Some(text) && r[i].(overlayText := s[i].overlayText) == s[i]
  {
    if s == [] then []
    else
      var head := if s[0].id == id then s[0].(overlayText := Some(text)) else s[0];
      [head] + SaveOverlayById(s[1..], id, text)
  }

  /**
   * The overlay save as App.tsx writes it: the saved text goes into a property
   * named `overlayOptions`, and the `overlayText` every reader uses is untouched.
   */
  function SaveOverlayAsWritten(s: seq<MediaFile>, id: string, text: string): (r: seq<MediaFile>)
    ensures |r| == |s|
    ensures forall i :: 0 <= i < |s| ==> r[i].overlayText == s[i].overlayText
    ensures forall i :: 0 <= i < |s| && s[i].id != id ==> r[i] == s[i]
    ensures forall i :: 0 <= i < |s| && s[i].id == id ==>
      r[i].overlayOptions == Some(text) && r[i].(overlayOptions := s[i].overlayOptions) == s[i]
  {
    if s == [] then []
    else
      var head := if s[0].id == id then s[0].(overlayOptions := Some(text)) else s[0];
      [head] + SaveOverlayAsWritten(s[1..], id, text)
  }

  /** Toggling or saving on an id that is not in the list changes nothing. */
  lemma UpdatesOfAbsentIdAreNoOps(s: seq<MediaFile>, id: string, text: string)
    requires !HasId(s, id)
    ensures ToggleDramaticById(s, id) == s
    ensures SaveOverlayById(s, id, text) == s
    ensures SaveOverlayAsWritten(s, id, text) == s
  {
  }

  /** The per-item updates keep every id in place, so unique ids stay unique. */
  lemma UpdatesKeepIds(s: seq<MediaFile>, id: string, text: string)
    requires UniqueIds(s)
    ensures UniqueIds(ToggleDramaticById(s, id))
    ensures UniqueIds(SaveOverlayById(s, id, text))
    ensures UniqueIds(SaveOverlayAsWritten(s, id, text))
  {
  }
}
