/** A Redis stream with one consumer group: what the group has delivered, what
    is still pending, and what has been acknowledged. */
module Streams {

  /** Entries are numbered in the order they were added.  The group has delivered
      the first `cursor` of them; `pending` names the consumer that owns each
      delivered entry that is not acknowledged. */
  datatype Stream<E> = Stream(entries: seq<E>, cursor: nat, pending: map<nat, string>, acked: set<nat>)

  function New<E>(): Stream<E> {
    Stream([], 0, map[], {})
  }

  ghost predicate Valid<E>(s: Stream<E>) {
    && s.cursor <= |s.entries|
    && (forall id: nat :: id in s.pending || id in s.acked <==> id < s.cursor)
    && (forall id :: id in s.pending ==> id !in s.acked)
  }

  datatype Place = Undelivered | Pending | Acknowledged

  function PlaceOf<E>(s: Stream<E>, id: nat): Place {
    if id in s.acked then Acknowledged else if id in s.pending then Pending else Undelivered
  }

  /** XADD. */
  function Add<E>(s: Stream<E>, e: E): Stream<E> {
    s.(entries := s.entries + [e])
  }

  /** The `n` numbers from `start` on. */
  function Span(start: nat, n: nat): (ids: set<nat>)
    ensures forall id :: id in ids <==> start <= id < start + n
  {
    if n == 0 then {} else Span(start, n - 1) + {start + n - 1}
  }

  /** XREADGROUP with `>`: the next `n` entries become pending. */
  function Deliver<E>(s: Stream<E>, n: nat, consumer: string): Stream<E> {
    s.(cursor := s.cursor + n,
       pending := s.pending + map id | id in Span(s.cursor, n) :: consumer)
  }

  /** XACK: an entry that is not pending is left alone. */
  function Ack<E>(s: Stream<E>, id: nat): Stream<E> {
    if id in s.pending then s.(pending := s.pending - {id}, acked := s.acked + {id}) else s
  }

  /** XAUTOCLAIM: pending entries change owner, and nothing else. */
  function Claim<E>(s: Stream<E>, ids: set<nat>, consumer: string): Stream<E> {
    s.(pending := map id | id in s.pending :: if id in ids then consumer else s.pending[id])
  }

  /** Every entry is in exactly one place, and the place says what the group
      knows of it. */
  lemma Conserved<E>(s: Stream<E>, id: nat)
    requires Valid(s) && id < |s.entries|
    ensures PlaceOf(s, id) == Undelivered <==> id >= s.cursor && id !in s.pending && id !in s.acked
    ensures PlaceOf(s, id) == Pending <==> id in s.pending && id !in s.acked && id < s.cursor
    ensures PlaceOf(s, id) == Acknowledged <==> id in s.acked && id !in s.pending && id < s.cursor
  {
  }

  lemma OperationsKeepValid<E>(s: Stream<E>, e: E, n: nat, consumer: string, id: nat, ids: set<nat>)
    requires Valid(s)
    ensures Valid(Add(s, e)) && Valid(Ack(s, id)) && Valid(Claim(s, ids, consumer))
    ensures s.cursor + n <= |s.entries| ==> Valid(Deliver(s, n, consumer))
  {
  }

  /** After a claim the entries claimed that were pending are the claimer's, the
      other pending ones are whose they were, and nothing else has changed. */
  lemma ClaimMovesOwners<E>(s: Stream<E>, ids: set<nat>, consumer: string)
    ensures var s' := Claim(s, ids, consumer);
      && s'.entries == s.entries && s'.cursor == s.cursor && s'.acked == s.acked
      && s'.pending.Keys == s.pending.Keys
      && (forall id :: id in s.pending && id in ids ==> s'.pending[id] == consumer)
      && (forall id :: id in s.pending && id !in ids ==> s'.pending[id] == s.pending[id])
  {
  }

  /** A delivery gives the reader the next entries, and takes none from anybody. */
  lemma DeliveryNamesTheReader<E>(s: Stream<E>, n: nat, consumer: string)
    requires Valid(s) && s.cursor + n <= |s.entries|
    ensures var s' := Deliver(s, n, consumer);
      && s'.entries == s.entries && s'.cursor == s.cursor + n && s'.acked == s.acked
      && (forall id: nat :: s.cursor <= id < s.cursor + n ==> id in s'.pending && s'.pending[id] == consumer)
      && (forall id: nat :: id in s'.pending && !(s.cursor <= id < s.cursor + n) ==>
            id in s.pending && s'.pending[id] == s.pending[id])
      && (forall id: nat :: id in s.pending ==> id in s'.pending && s'.pending[id] == s.pending[id])
  {
  }

  lemma {:induction false} SpanSize(start: nat, n: nat)
    ensures |Span(start, n)| == n
  {
    if n > 0 {
      SpanSize(start, n - 1);
      assert start + n - 1 !in Span(start, n - 1);
    }
  }

  /** Every entry is counted once: undelivered, pending or acknowledged. */
  lemma CountsAddUp<E>(s: Stream<E>)
    requires Valid(s)
    ensures (|s.entries| - s.cursor) + |s.pending| + |s.acked| == |s.entries|
  {
    SpanSize(0, s.cursor);
    assert Span(0, s.cursor) == s.pending.Keys + s.acked;
    assert s.pending.Keys !! s.acked;
    assert |s.pending.Keys| == |s.pending|;
  }

  /** What no operation undoes: entries stay as they are, and what was delivered
      or acknowledged remains so. */
  ghost predicate Extends<E>(s: Stream<E>, s': Stream<E>) {
    s.entries <= s'.entries && s.cursor <= s'.cursor && s.acked <= s'.acked
  }
}
