/**
 * array.c as it is: `data` and `sorted` grow by 16 places, the index is kept in place.  Every
 * method is proved against the dictionary of SortedIndex.
 */
module ArrayStore {
  import opened Options
  import opened CaselessOrder
  import opened IndexSearch
  import opened SortedIndex

  const STEP: nat := 16

  class Array<V> {
    var data: array<Option<Item<V>>>
    var sorted: array<nat>
    var used: nat
    var np2: nat

    ghost predicate Shaped()
      reads this, data
    {
      used <= data.Length == sorted.Length && forall i :: 0 <= i < used ==> data[i].Some?
    }

    ghost function View(): Index<V>
      requires Shaped()
      reads this, data, sorted
    {
      Index(Stored(data[..used]), sorted[..used], np2)
    }

    ghost predicate Valid()
      reads this, data, sorted
    {
      Shaped() && WellFormed(View())
    }

    constructor ()
      ensures Valid() && View() == Fresh() && fresh(data) && fresh(sorted)
    {
      data, sorted, used, np2 := new Option<Item<V>>[0], new nat[0], 0, 1;
      new;
      assert Stored(data[..used]) == [];
    }

    method CompareAt(key: seq<Char>, pos: nat) returns (cmp: int)
      requires Valid() && pos < used
      ensures cmp == Compare(key, Keys(View())[pos])
    {
      var aligned := *;
      cmp := CaselessCompare(key, data[sorted[pos]].value.key, aligned);
    }

    /** One turn of the search: go left or right, unless the key is here. */
    method Turn(key: seq<Char>, pos: int, i: nat) returns (hit: bool, next: int)
      requires Valid()
      ensures var d := Probe(Keys(View()), key, pos);
              (hit <==> d == 0) && (d < 0 ==> next == pos - i) && (d > 0 ==> next == pos + i) && (hit ==> next == pos)
    {
      hit, next := false, pos;
      if pos < 0 {
        next := pos + i;
      } else if pos >= used {
        next := pos - i;
      } else {
        var cmp := CompareAt(key, pos);
        if cmp == 0 {
          hit := true;
        } else if cmp < 0 {
          next := pos - i;
        } else {
          next := pos + i;
        }
      }
    }

    method Descend(key: seq<Char>, ghost keys: seq<seq<Char>>, start: nat) returns (hit: bool, pos: int)
      requires Valid() && keys == Keys(View())
      ensures hit ==> 0 <= pos < used
      ensures Search(keys, key, start, start) == if hit then Found(pos) else Missed(pos)
    {
      var i := start;
      pos, hit := i, false;
      while true
        invariant !hit && Search(keys, key, start, start) == Search(keys, key, pos, i)
        decreases i
      {
        hit, pos := Turn(key, pos, i);
        if hit || i == 0 { break; }
        i := i / 2;
      }
    }

    /** array_get_index: the position of the item or -1, and where the search stopped. */
    method GetIndex(key: seq<Char>) returns (ndx: int, pos: int)
      requires Valid()
      ensures match Find(View(), key)
              case Found(t) => t < used && pos == t && ndx == View().sorted[t]
              case Missed(p) => pos == p && ndx == -1
    {
      var hit: bool;
      hit, pos := Descend(key, Keys(View()), np2 / 2);
      ndx := if hit then sorted[pos] else -1;
    }

    /** array_get_element */
    method GetElement(key: seq<Char>) returns (r: Option<Item<V>>)
      requires Valid()
      ensures r == match Lookup(View(), key) case Some(j) => Some(View().items[j]) case None => None
    {
      StartsInReach(Keys(View()), key, np2);
      var ndx, pos := GetIndex(key);
      if ndx != -1 { return data[ndx]; }
      return None;
    }

    /** Room for one more item. */
    method Grow()
      requires Valid()
      modifies this
      ensures Valid() && View() == old(View()) && used < data.Length
      ensures data == old(data) || fresh(data)
      ensures sorted == old(sorted) || fresh(sorted)
    {
      if data.Length == used {
        var moreData := Resized(data, used + STEP, None);
        var moreSorted := Resized(sorted, used + STEP, 0);
        assert moreData[..used] == data[..used] && moreSorted[..used] == sorted[..used];
        data, sorted := moreData, moreSorted;
      }
    }

    /** The end of array_insert_unique: append the item and move the index one place to the
        right from the rank on. */
    method PutAt(item: Item<V>, pos: nat)
      requires Valid() && used < data.Length && pos <= used
      modifies `used, `np2, data, sorted
      ensures Valid() && View() == InsertAt(old(View()), item, pos)
    {
      InsertAtKeeps(View(), item, pos);
      PutIn(sorted, pos, used);
      data[used] := Some(item);
      assert Stored(data[..used + 1]) == Stored(old(data[..used])) + [item];
      if np2 == used { np2 := 2 * np2; }
      used := used + 1;
    }

    method Store(ndx: nat, item: Item<V>)
      requires Valid() && ndx < used
      modifies data
      ensures Valid() && View() == old(View()).(items := old(View()).items[ndx := item])
    {
      UpdateKeeps(View(), ndx, item);
      data[ndx] := Some(item);
      assert Stored(data[..used]) == Stored(old(data[..used]))[ndx := item];
    }

    /** One place further if the search stopped before the rank of the key. */
    method RankFor(key: seq<Char>, pos: int) returns (r: nat)
      requires Valid() && -1 <= pos <= used
      ensures r == InsertRank(Keys(View()), key, pos)
    {
      if pos == used { return pos; }
      if pos < 0 { return pos + 1; }
      var cmp := CompareAt(key, pos);
      r := if cmp > 0 then pos + 1 else pos;
    }

    /** array_insert_unique */
    method InsertUnique(item: Item<V>, dup: (V, V) -> V) returns (r: int)
      requires Valid()
      modifies this, data, sorted
      ensures Valid() && View() == Insert(old(View()), item, dup)
      ensures r == -1 <==> Lookup(old(View()), item.key).None? && old(used) + 1 > INT_MAX
      ensures r == 0 || r == -1
    {
      StartsInReach(Keys(View()), item.key, np2);
      var ndx, pos := GetIndex(item.key);
      if ndx != -1 {
        var stored := data[ndx].value;
        Store(ndx, Item(stored.key, dup(stored.value, item.value)));
        return 0;
      }
      if used + 1 > INT_MAX { return -1; }
      var rank := RankFor(item.key, pos);
      Grow();
      PutAt(item, rank);
      return 0;
    }

    /** array_replace: the item that was stored under the key before, if there was one. */
    method ReplaceItem(item: Item<V>, dup: (V, V) -> V) returns (old': Option<Item<V>>)
      requires Valid()
      modifies this, data, sorted
      ensures Valid() && View() == Replace(old(View()), item, dup)
      ensures old' == match Lookup(old(View()), item.key) case Some(j) => Some(old(View()).items[j]) case None => None
    {
      StartsInReach(Keys(View()), item.key, np2);
      var ndx, pos := GetIndex(item.key);
      if ndx == -1 {
        var r := InsertUnique(item, dup);
        return None;
      }
      old' := data[ndx];
      Store(ndx, item);
    }

    /** array_reset: the places are kept, and so is the width of the search. */
    method ResetAll()
      requires Valid()
      modifies `used
      ensures Valid() && View() == Reset(old(View()))
    {
      used := 0;
      assert Stored(data[..used]) == [];
    }
  }

  /** realloc() */
  method Resized<T>(a: array<T>, size: nat, filler: T) returns (b: array<T>)
    requires size >= a.Length
    ensures fresh(b) && b.Length == size && b[..a.Length] == a[..]
  {
    b := new T[size](_ => filler);
    for j := 0 to a.Length
      invariant b[..j] == a[..j]
    {
      b[j] := a[j];
    }
  }

  /** memmove() one place to the right */
  method ShiftRight(a: array<nat>, pos: nat, end: nat)
    requires pos <= end < a.Length
    modifies a
    ensures a[..pos] == old(a[..pos]) && a[pos + 1..end + 1] == old(a[pos..end])
  {
    ghost var before := a[..];
    var j := end;
    while j > pos
      invariant pos <= j <= end && a[..j + 1] == before[..j + 1]
      invariant a[j + 1..end + 1] == before[j..end]
    {
      a[j] := a[j - 1];
      j := j - 1;
      assert a[j + 1..end + 1] == [before[j]] + before[j + 1..end];
    }
  }

  /** `end` goes into the first `end` places of the index at `pos`. */
  method PutIn(a: array<nat>, pos: nat, end: nat)
    requires pos <= end < a.Length
    modifies a
    ensures a[..end + 1] == old(a[..end][..pos]) + [end] + old(a[..end][pos..])
  {
    ShiftRight(a, pos, end);
    a[pos] := end;
    assert a[..end + 1] == a[..pos] + [a[pos]] + a[pos + 1..end + 1];
  }

  ghost function Stored<V>(data: seq<Option<Item<V>>>): seq<Item<V>>
    requires forall i :: 0 <= i < |data| ==> data[i].Some?
  {
    seq(|data|, i requires 0 <= i < |data| => data[i].value)
  }
}
