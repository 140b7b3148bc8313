/** Keyset pagination in created_at DESC, id DESC order. A cursor is modelled by the JSON
    payload inside the opaque string. */
module Pagination {
  import opened Prelude
  import opened Strings
  import opened Jobs

  const TWO_63: int := 0x8000_0000_0000_0000

  /** Conversion to int64. */
  function Wrap64(x: int): int {
    (x + TWO_63) % (2 * TWO_63) - TWO_63
  }

  predicate FitsUnixNano(t: int) {
    -TWO_63 <= t - UNIX_EPOCH < TWO_63
  }

  datatype Cursor = NoCursor | Payload(version: int, createdAt: int, id: string) | Malformed

  datatype Decoded = Position(createdAt: int, id: string) | InvalidCursor

  function EncodeJobCursor(r: Row): Cursor {
    Payload(1, Wrap64(r.createdAt - UNIX_EPOCH), r.id)
  }

  function DecodeJobCursor(c: Cursor): Decoded {
    if !c.Payload? || c.version != 1 || c.createdAt == 0 || c.id == "" then InvalidCursor
    else Position(UNIX_EPOCH + c.createdAt, c.id)
  }

  /** A row's cursor decodes to the row's own position exactly when its creation instant
      fits a Unix nanosecond count, is not the Unix epoch itself, and its ID is set. */
  lemma CursorRoundTripIff(r: Row)
    ensures DecodeJobCursor(EncodeJobCursor(r)) == Position(r.createdAt, r.id) <==>
      FitsUnixNano(r.createdAt) && r.createdAt != UNIX_EPOCH && r.id != ""
  {
    var x := r.createdAt - UNIX_EPOCH;
    assert -TWO_63 <= Wrap64(x) < TWO_63;
    assert -TWO_63 <= x < TWO_63 ==> Wrap64(x) == x;
  }

  predicate JobFollowsCursor(r: Row, createdAt: int, id: string) {
    r.createdAt < createdAt || (r.createdAt == createdAt && Less(r.id, id))
  }

  /** The cursor comparison is the list order. */
  lemma FollowsIsListOrder(r: Row, last: Row)
    ensures JobFollowsCursor(r, last.createdAt, last.id) <==> ListedBefore(last, r)
  {
  }
}
