/** The `habits` table shared by both repositories: a map from id to name whose ids come from a
    SERIAL sequence starting at 1, and the answer of `SELECT * FROM habits ORDER BY id ASC`. */
module HabitTable {
  import opened Common

  /** Every id was drawn from the sequence before its current value `nextId`. */
  ghost predicate IdsBelow(habits: map<int, string>, nextId: int) {
    nextId >= 1 && forall id :: id in habits ==> 1 <= id < nextId
  }

  /** The rows with id below `hi`, in ascending id order. */
  function ListingBelow(habits: map<int, string>, hi: int): (r: seq<Habit>)
    ensures forall i :: 0 <= i < |r| ==> 1 <= r[i].id < hi
    ensures forall i, j :: 0 <= i < j < |r| ==> r[i].id < r[j].id
    ensures forall h :: h in r <==> 1 <= h.id < hi && h.id in habits && habits[h.id] == h.name
    decreases hi
  {
    if hi <= 1 then []
    else ListingBelow(habits, hi - 1) + (if hi - 1 in habits then [Habit(hi - 1, habits[hi - 1])] else [])
  }

  /** The result set of `getAllHabits`. */
  function Listing(habits: map<int, string>, nextId: int): (r: seq<Habit>)
    ensures forall i, j :: 0 <= i < j < |r| ==> r[i].id < r[j].id
    ensures forall h :: h in r <==> 1 <= h.id < nextId && h.id in habits && habits[h.id] == h.name
  {
    ListingBelow(habits, nextId)
  }

  /** The listing holds every habit of the table exactly once, with its name, in strictly
      ascending id order, and nothing else. */
  lemma ListingIsTableInIdOrder(habits: map<int, string>, nextId: int)
    requires IdsBelow(habits, nextId)
    ensures forall i, j :: 0 <= i < j < |Listing(habits, nextId)| ==>
              Listing(habits, nextId)[i].id < Listing(habits, nextId)[j].id
    ensures forall id :: id in habits ==> Habit(id, habits[id]) in Listing(habits, nextId)
    ensures forall h :: h in Listing(habits, nextId) ==> h.id in habits && habits[h.id] == h.name
    ensures |Listing(habits, nextId)| == |habits|
  {
    ListingCount(habits, nextId);
    assert (set k | k in habits && 1 <= k < nextId) == habits.Keys;
  }

  /** The rows below `hi` are as many as the table's ids in 1..hi-1. */
  lemma {:induction false} ListingCount(habits: map<int, string>, hi: int)
    ensures |ListingBelow(habits, hi)| == |set k | k in habits && 1 <= k < hi|
    decreases hi
  {
    if hi <= 1 {
      assert (set k | k in habits && 1 <= k < hi) == {};
    } else {
      ListingCount(habits, hi - 1);
      var below := set k | k in habits && 1 <= k < hi - 1;
      if hi - 1 in habits {
        assert (set k | k in habits && 1 <= k < hi) == below + {hi - 1};
      } else {
        assert (set k | k in habits && 1 <= k < hi) == below;
      }
    }
  }
}
