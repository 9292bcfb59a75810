/** The growable string array that brace expansion builds its words in. */
module StringLists {

  class StringList {
    var items: array<string>
    var count: nat

    ghost predicate Valid()
      reads this
    {
      0 < items.Length && count <= items.Length
    }

    ghost function Contents(): (c: seq<string>)
      requires Valid()
      reads this, items
      ensures |c| == count
    {
      items[..count]
    }

    constructor ()
      ensures Valid() && fresh(items) && Contents() == []
    {
      items := new string[8](_ => "");
      count := 0;
    }

    // add_to_list: the items from where on move up by one; a full array is doubled first.
    method Add(s: string, where: nat)
      requires Valid() && where <= count
      modifies this, items
      ensures Valid() && (items == old(items) || fresh(items))
      ensures Contents() == old(Contents()[..where] + [s] + Contents()[where..])
    {
      ghost var was := Contents();
      if count == items.Length {
        Grow();
      }
      var list, i := items, count;
      while i > where
        invariant where <= i <= count == |was| < list.Length && list == items
        invariant list[..i] == was[..i]
        invariant forall k :: i < k <= count ==> list[k] == was[k - 1]
      {
        list[i] := list[i - 1];
        i := i - 1;
      }
      list[i] := s;
      count := count + 1;
      assert list[..where] == was[..where];
      Inserted(list[..count], was, where, s);
    }

    method Grow()
      requires Valid() && count == items.Length
      modifies `items
      ensures Valid() && count < items.Length && fresh(items)
      ensures Contents() == old(Contents())
    {
      var bigger := new string[2 * items.Length](_ => "");
      forall k | 0 <= k < count { bigger[k] := items[k]; }
      assert bigger[..count] == items[..count];
      items := bigger;
    }

    // remove_from_list
    method Remove(at: nat)
      requires Valid() && at < count
      modifies `count, items
      ensures Valid() && items == old(items)
      ensures Contents() == old(Contents()[..at] + Contents()[at + 1..])
    {
      ghost var was := Contents();
      var j, last := at, count - 1;
      while j < last
        invariant at <= j <= last == count - 1
        invariant forall k :: 0 <= k < at ==> items[k] == was[k]
        invariant forall k :: at <= k < j ==> items[k] == was[k + 1]
        invariant forall k :: j < k < count ==> items[k] == was[k]
      {
        items[j] := items[j + 1];
        j := j + 1;
      }
      items[j] := "";
      count := last;
      assert items[..count] == was[..at] + was[at + 1..];
    }
  }

  lemma Inserted(now: seq<string>, was: seq<string>, where: nat, s: string)
    requires where <= |was| && |now| == |was| + 1 && now[..where] == was[..where] && now[where] == s
    requires forall k :: where < k <= |was| ==> now[k] == was[k - 1]
    ensures now == was[..where] + [s] + was[where..]
  {
    forall k | 0 <= k < |now| ensures now[k] == (was[..where] + [s] + was[where..])[k] {
      if k < where { assert now[k] == now[..where][k]; }
    }
  }
}
