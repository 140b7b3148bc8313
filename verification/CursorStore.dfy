/** The schedule-cursor map of the in-memory driver: get-or-create and compare-and-swap,
    each one critical section. */
module CursorStore {

  /** What compare-and-swap leaves in the map. */
  function Swapped(cursors: map<string, int>, id: string, expected: int, next: int): map<string, int> {
    if id in cursors && cursors[id] == expected then cursors[id := next] else cursors
  }

  class Cursors {
    var cursors: map<string, int>

    constructor ()
      ensures cursors == map[]
    {
      cursors := map[];
    }

    method GetOrCreate(id: string, initialAt: int) returns (at: int, created: bool)
      modifies this
      ensures created <==> id !in old(cursors)
      ensures cursors == if created then old(cursors)[id := initialAt] else old(cursors)
      ensures id in cursors && at == cursors[id]
    {
      if id in cursors {
        return cursors[id], false;
      }
      cursors := cursors[id := initialAt];
      return initialAt, true;
    }

    method Advance(id: string, expected: int, next: int) returns (advanced: bool)
      modifies this
      ensures advanced <==> id in old(cursors) && old(cursors)[id] == expected
      ensures cursors == Swapped(old(cursors), id, expected, next)
    {
      if id !in cursors || cursors[id] != expected {
        return false;
      }
      cursors := cursors[id := next];
      return true;
    }
  }
}
