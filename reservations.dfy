/**
 * The reservation table of server.py and the rules over it: the per-slot
 * admission check (`max_reservations_reached`), the record `schedule`
 * appends, and the two listings ordered by `(date, time)`.
 *
 * The table is a sequence in insertion order; a record's `id` is its
 * position plus one, which is what an SQLite integer primary key gives a
 * table that is only ever appended to.
 */
module Reservations {
  import opened Common
  import opened Text

  /** At most this many reservations per `(date, time)` slot. */
  const Capacity: nat := 3

  datatype Reservation = Reservation(
    id: nat,
    userId: nat,
    date: string,
    time: string,
    partySize: int,
    notes: string)

  /** One booking request as `schedule` sees it: the session's user and the form fields. */
  datatype Booking = Booking(userId: nat, date: string, time: string, partySize: int, notes: string)

  /** The range of an SQLite INTEGER: the driver binds integers as signed 64-bit values. */
  const IntegerMin: int := -0x8000_0000_0000_0000
  const IntegerMax: int := 0x7FFF_FFFF_FFFF_FFFF

  /**
   * Whether the record of `b` can be committed. Python's `int()` accepts a
   * party size of any magnitude, but the commit fails on one outside the
   * INTEGER range, and then nothing is stored.
   */
  predicate Storable(b: Booking) {
    IntegerMin <= b.partySize <= IntegerMax
  }

  /** `Reservation.query.filter_by(date=date, time=time).count()`. */
  function SlotCount(rs: seq<Reservation>, date: string, time: string): (n: nat)
    ensures n <= |rs|
  {
    if rs == [] then 0
    else (if rs[0].date == date && rs[0].time == time then 1 else 0) + SlotCount(rs[1..], date, time)
  }

  /** `max_reservations_reached(date, time)`. */
  predicate MaxReservationsReached(rs: seq<Reservation>, date: string, time: string) {
    SlotCount(rs, date, time) >= Capacity
  }

  /** The capacity invariant: no slot holds more than `Capacity` reservations. */
  ghost predicate WithinCapacity(rs: seq<Reservation>) {
    forall date, time :: SlotCount(rs, date, time) <= Capacity
  }

  /** Record ids are 1, 2, 3, ... in insertion order. */
  predicate WellNumbered(rs: seq<Reservation>) {
    forall i :: 0 <= i < |rs| ==> rs[i].id == i + 1
  }

  /**
   * The POST branch of `schedule` after the session check: refuse when the
   * slot is full, otherwise the one record to insert, carrying every field of
   * the request and an id no earlier record has.
   */
  function Admit(rs: seq<Reservation>, b: Booking): (r: Option<Reservation>)
    ensures r.None? <==> SlotCount(rs, b.date, b.time) >= Capacity
    ensures r.Some? ==>
      && r.value.userId == b.userId && r.value.date == b.date && r.value.time == b.time
      && r.value.partySize == b.partySize && r.value.notes == b.notes
    ensures r.Some? && WellNumbered(rs) ==>
      WellNumbered(rs + [r.value]) && forall i :: 0 <= i < |rs| ==> rs[i].id != r.value.id
  {
    if MaxReservationsReached(rs, b.date, b.time) then None
    else Some(Reservation(|rs| + 1, b.userId, b.date, b.time, b.partySize, b.notes))
  }

  /**
   * The table after one booking attempt: unchanged when refused or when the
   * commit fails, one record appended otherwise.
   */
  function Book(rs: seq<Reservation>, b: Booking): (r: seq<Reservation>)
    ensures r == rs <==> SlotCount(rs, b.date, b.time) >= Capacity || !Storable(b)
    ensures r != rs ==> |r| == |rs| + 1 && r[..|rs|] == rs && Admit(rs, b) == Some(r[|rs|])
  {
    match Admit(rs, b)
    case None => rs
    case Some(res) =>
      if !Storable(b) then rs
      else assert (rs + [res])[..|rs|] == rs; rs + [res]
  }

  lemma {:induction false} SlotCountAppend(rs: seq<Reservation>, x: Reservation, date: string, time: string)
    ensures SlotCount(rs + [x], date, time)
         == SlotCount(rs, date, time) + (if x.date == date && x.time == time then 1 else 0)
  {
    if rs == [] {
      assert rs + [x] == [x];
    } else {
      assert (rs + [x])[1..] == rs[1..] + [x];
      SlotCountAppend(rs[1..], x, date, time);
    }
  }

  /**
   * One booking attempt changes only the count of its own slot, and that by
   * one exactly when the slot was not yet full and the record can be stored.
   */
  lemma BookCounts(rs: seq<Reservation>, b: Booking, date: string, time: string)
    ensures (date != b.date || time != b.time) ==> SlotCount(Book(rs, b), date, time) == SlotCount(rs, date, time)
    ensures date == b.date && time == b.time ==>
      SlotCount(Book(rs, b), date, time)
        == if SlotCount(rs, date, time) >= Capacity || !Storable(b) then SlotCount(rs, date, time)
           else SlotCount(rs, date, time) + 1
  {
    if Book(rs, b) != rs {
      SlotCountAppend(rs, Book(rs, b)[|rs|], date, time);
      assert Book(rs, b) == rs + [Book(rs, b)[|rs|]];
    }
  }

  /** A booking attempt keeps the capacity invariant. */
  lemma BookPreservesCapacity(rs: seq<Reservation>, b: Booking)
    requires WithinCapacity(rs)
    ensures WithinCapacity(Book(rs, b))
  {
    forall date, time ensures SlotCount(Book(rs, b), date, time) <= Capacity {
      BookCounts(rs, b, date, time);
    }
  }

  /** The table after the booking attempts `bs`, processed one at a time in order. */
  function BookAll(rs: seq<Reservation>, bs: seq<Booking>): (r: seq<Reservation>)
    ensures |rs| <= |r| <= |rs| + |bs| && r[..|rs|] == rs
    decreases bs
  {
    if bs == [] then rs else BookAll(Book(rs, bs[0]), bs[1..])
  }

  /** Any sequence of booking attempts keeps the capacity invariant. */
  lemma {:induction false} BookAllPreservesCapacity(rs: seq<Reservation>, bs: seq<Booking>)
    requires WithinCapacity(rs)
    ensures WithinCapacity(BookAll(rs, bs))
    decreases bs
  {
    if bs != [] {
      BookPreservesCapacity(rs, bs[0]);
      BookAllPreservesCapacity(Book(rs, bs[0]), bs[1..]);
    }
  }

  /** Starting from an empty table, no sequence of bookings overfills a slot. */
  lemma BookAllFromEmpty(bs: seq<Booking>)
    ensures WithinCapacity(BookAll([], bs))
  {
    BookAllPreservesCapacity([], bs);
  }

  /**
   * How many of the requests `bs` ask for the slot `(date, time)` with a
   * party size that can be stored. Unlike `SlotCount`, which counts stored
   * records, this counts requests, and skips those whose commit would fail.
   */
  function Requests(bs: seq<Booking>, date: string, time: string): (n: nat)
    ensures n <= |bs|
  {
    if bs == [] then 0
    else (if bs[0].date == date && bs[0].time == time && Storable(bs[0]) then 1 else 0) + Requests(bs[1..], date, time)
  }

  /** The smaller of `a` and `b`: a slot's count is capped at `Capacity`. */
  function Min(a: int, b: int): int { if a <= b then a else b }

  /**
   * Storable requests for a slot are admitted until it is full and refused
   * from then on: after `bs`, the slot holds its earlier reservations plus as
   * many of those requests as fit, never more than `Capacity`.
   */
  lemma {:induction false} BookAllSlotCount(rs: seq<Reservation>, bs: seq<Booking>, date: string, time: string)
    requires SlotCount(rs, date, time) <= Capacity
    ensures SlotCount(BookAll(rs, bs), date, time) == Min(Capacity, SlotCount(rs, date, time) + Requests(bs, date, time))
    decreases bs
  {
    if bs != [] {
      BookCounts(rs, bs[0], date, time);
      BookAllSlotCount(Book(rs, bs[0]), bs[1..], date, time);
    }
  }

  /** `filter_by(user_id=uid)`: the reservations owned by `uid`, each as often as in `rs`. */
  function OwnedBy(rs: seq<Reservation>, uid: nat): (r: seq<Reservation>)
    ensures forall x :: multiset(r)[x] == if x.userId == uid then multiset(rs)[x] else 0
  {
    if rs == [] then []
    else
      assert rs == [rs[0]] + rs[1..];
      (if rs[0].userId == uid then [rs[0]] else []) + OwnedBy(rs[1..], uid)
  }

  /** The order of `order_by(Reservation.date, Reservation.time)`: by date, then by time. */
  predicate SlotLe(x: Reservation, y: Reservation) {
    StrLe(x.date, y.date) && (x.date == y.date ==> StrLe(x.time, y.time))
  }

  lemma SlotLeReflexive(x: Reservation)
    ensures SlotLe(x, x)
  {
    StrLeReflexive(x.date);
    StrLeReflexive(x.time);
  }

  lemma SlotLeTotal(x: Reservation, y: Reservation)
    ensures SlotLe(x, y) || SlotLe(y, x)
  {
    StrLeTotal(x.date, y.date);
    StrLeTotal(x.time, y.time);
  }

  lemma SlotLeTransitive(x: Reservation, y: Reservation, z: Reservation)
    requires SlotLe(x, y) && SlotLe(y, z)
    ensures SlotLe(x, z)
  {
    StrLeTransitive(x.date, y.date, z.date);
    if x.date == z.date {
      StrLeAntisymmetric(x.date, y.date);
      StrLeTransitive(x.time, y.time, z.time);
    }
  }

  predicate SortedBySlot(s: seq<Reservation>) {
    forall i, j :: 0 <= i < j < |s| ==> SlotLe(s[i], s[j])
  }

  /** Inserts `x` before the first element it does not follow. */
  function InsertBySlot(x: Reservation, s: seq<Reservation>): (r: seq<Reservation>)
    ensures multiset(r) == multiset(s) + multiset{x}
  {
    if s == [] || SlotLe(x, s[0]) then [x] + s
    else assert s == [s[0]] + s[1..]; [s[0]] + InsertBySlot(x, s[1..])
  }

  lemma {:induction false} InsertSorted(x: Reservation, s: seq<Reservation>)
    requires SortedBySlot(s)
    ensures SortedBySlot(InsertBySlot(x, s))
  {
    if s == [] || SlotLe(x, s[0]) {
      var r := [x] + s;
      forall i, j | 0 <= i < j < |r| ensures SlotLe(r[i], r[j]) {
        if i == 0 && j > 1 { SlotLeTransitive(x, s[0], s[j - 1]); }
      }
    } else {
      SlotLeTotal(x, s[0]);
      InsertSorted(x, s[1..]);
      var t := InsertBySlot(x, s[1..]);
      forall j | 0 <= j < |t| ensures SlotLe(s[0], t[j]) {
        assert t[j] in multiset(t);
        if t[j] != x {
          assert t[j] in multiset(s[1..]);
          var k :| 0 <= k < |s[1..]| && s[1..][k] == t[j];
          assert s[k + 1] == t[j];
        }
      }
    }
  }

  /** A sort by `(date, time)`: sorted, and a permutation of its input. */
  function SortBySlot(s: seq<Reservation>): (r: seq<Reservation>)
    ensures SortedBySlot(r)
    ensures multiset(r) == multiset(s)
  {
    if s == [] then []
    else
      var rest := SortBySlot(s[1..]);
      InsertSorted(s[0], rest);
      assert s == [s[0]] + s[1..];
      InsertBySlot(s[0], rest)
  }

  /** The listing of `home` (server.py:50): the user's own reservations, ordered by slot. */
  function UserListing(rs: seq<Reservation>, uid: nat): (r: seq<Reservation>)
    ensures SortedBySlot(r)
    ensures forall x :: multiset(r)[x] == if x.userId == uid then multiset(rs)[x] else 0
  {
    SortBySlot(OwnedBy(rs, uid))
  }

  /** The listing of `admin_home` (server.py:140): every reservation, ordered by slot. */
  function AdminListing(rs: seq<Reservation>): (r: seq<Reservation>)
    ensures SortedBySlot(r)
    ensures multiset(r) == multiset(rs)
  {
    SortBySlot(rs)
  }

  /** A user's listing holds exactly the reservations of the table that user owns. */
  lemma UserListingMembers(rs: seq<Reservation>, uid: nat, x: Reservation)
    ensures x in UserListing(rs, uid) <==> x in rs && x.userId == uid
  {
  }

  /** `Reservation.query.get(id)` on a well-numbered table. */
  function FindReservation(rs: seq<Reservation>, id: int): (r: Option<Reservation>)
    requires WellNumbered(rs)
    ensures r.Some? ==> r.value in rs && r.value.id == id
    ensures r.None? ==> forall i :: 0 <= i < |rs| ==> rs[i].id != id
  {
    if 1 <= id <= |rs| then Some(rs[id - 1]) else None
  }
}
