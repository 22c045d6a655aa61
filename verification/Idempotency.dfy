/** The idempotency key: reserved short with SET NX EX, confirmed long with SET XX EX,
    released with an unowned DEL, and taken over with a compare-and-swap.

    A fingerprint is an injective digest of the note text, so the text itself stands for it. */
module Idempotency {
  import opened Links
  import opened Options

  datatype Key = Key(tenant: string, note: nat, text: string)

  datatype Judgement = Judgement(note: nat, lead: nat, body: string, requestId: nat)

  /** What a key can hold.  `Unreadable` is a stored value that no longer validates. */
  datatype Value = Reserved | Confirmed(judgement: Judgement) | Unreadable(raw: string)

  /** Every write of these keys carries EX. */
  datatype Entry = Entry(value: Value, expiresAt: nat)

  type Store = map<Key, Entry>

  predicate Live(m: Store, k: Key, now: nat) {
    k in m && now < m[k].expiresAt
  }

  function SetNx(m: Store, k: Key, now: nat, ttl: nat): Store {
    if Live(m, k, now) then m else m[k := Entry(Reserved, now + ttl)]
  }

  function SetXx(m: Store, k: Key, now: nat, v: Value, ttl: nat): Store {
    if Live(m, k, now) then m[k := Entry(v, now + ttl)] else m
  }

  function Swap(m: Store, k: Key, now: nat, expected: Value, ttl: nat): Store {
    if Live(m, k, now) && m[k].value == expected then m[k := Entry(Reserved, now + ttl)] else m
  }

  /** The reservation's lifetime: the deadline four times over, rounded up. */
  function InflightTtl(deadline: real): nat
    requires deadline > 0.0
  {
    var scaled := deadline * 4.0;
    if scaled.Floor as real == scaled then scaled.Floor else scaled.Floor + 1
  }

  /** It is never 0, which the store would refuse, and it covers four whole deadlines. */
  lemma InflightTtlCovers(deadline: real)
    requires deadline > 0.0
    ensures InflightTtl(deadline) >= 1
    ensures 4.0 * deadline <= InflightTtl(deadline) as real < 4.0 * deadline + 1.0
  {}

  datatype Result<+T> = Success(value: T) | Unavailable

  /** The five operations of the module, over one store. */
  class IdempotencyStore {
    var entries: Store
    var now: nat

    constructor ()
      ensures entries == map[] && now == 0
    {
      entries, now := map[], 0;
    }

    /** Fails closed. */
    method Reserve(k: Key, ttl: nat, link: Link) returns (r: Result<bool>)
      modifies this`entries
      ensures entries == if link.Applied() then SetNx(old(entries), k, now, ttl) else old(entries)
      ensures r == if link.Answers? then Success(!Live(old(entries), k, now)) else Unavailable
    {
      var exists_ := k in entries && now < entries[k].expiresAt;
      if link.Applied() && !exists_ {
        entries := entries[k := Entry(Reserved, now + ttl)];
      }
      r := if link.Answers? then Success(!exists_) else Unavailable;
    }

    /** Best effort: a failure is swallowed, and the key then expires on its own. */
    method Release(k: Key, link: Link)
      modifies this`entries
      ensures entries == if link.Applied() then old(entries) - {k} else old(entries)
    {
      if link.Applied() {
        entries := entries - {k};
      }
    }

    /** Fails open: the judgement is already paid for. */
    method Confirm(k: Key, judgement: Judgement, ttl: nat, link: Link)
      modifies this`entries
      ensures entries == if link.Applied() then SetXx(old(entries), k, now, Confirmed(judgement), ttl)
                         else old(entries)
    {
      if link.Applied() && k in entries && now < entries[k].expiresAt {
        entries := entries[k := Entry(Confirmed(judgement), now + ttl)];
      }
    }

    /** Fails closed.  A reservation reads as nothing. */
    method ReadConfirmed(k: Key, link: Link) returns (r: Result<Option<Value>>)
      ensures r == if link.Fails? then Unavailable
                   else if Live(entries, k, now) && !entries[k].value.Reserved?
                   then Success(Some(entries[k].value)) else Success(None)
    {
      if link.Fails? {
        return Unavailable;
      }
      if k in entries && now < entries[k].expiresAt && !entries[k].value.Reserved? {
        return Success(Some(entries[k].value));
      }
      return Success(None);
    }

    /** Fails closed. */
    method TakeOver(k: Key, expected: Value, ttl: nat, link: Link) returns (r: Result<bool>)
      modifies this`entries
      ensures entries == if link.Applied() then Swap(old(entries), k, now, expected, ttl) else old(entries)
      ensures r == if link.Fails? then Unavailable
                   else Success(Live(old(entries), k, now) && old(entries)[k].value == expected)
    {
      var same := k in entries && now < entries[k].expiresAt && entries[k].value == expected;
      if link.Applied() && same {
        entries := entries[k := Entry(Reserved, now + ttl)];
      }
      r := if link.Fails? then Unavailable else Success(same);
    }
  }
}
