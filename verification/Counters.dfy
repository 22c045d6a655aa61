/** Redis counters: integer keys that may carry an expiry, under an advancing clock.

    A command or a script runs as one atomic step, so a script is a sequence of the
    primitives below with nothing in between.  Time is in ticks of any length. */
module Counters {
  import opened Options

  datatype Entry = Entry(count: nat, expiresAt: Option<nat>)

  type Table<!K> = map<K, Entry>

  /** The key exists: it was written and has not expired. */
  predicate Live<K>(m: Table<K>, k: K, now: nat) {
    k in m && (m[k].expiresAt.Some? ==> now < m[k].expiresAt.value)
  }

  /** What GET reads, with 0 for a missing key. */
  function Count<K>(m: Table<K>, k: K, now: nat): nat {
    if Live(m, k, now) then m[k].count else 0
  }

  /** What a script that charges a key leaves behind: a key that is new, or that has no
      expiry, starts a window; a running window is never extended. */
  function Charged<K>(m: Table<K>, k: K, now: nat, amount: nat, window: nat): Table<K> {
    var running := Live(m, k, now) && m[k].expiresAt.Some?;
    var end := if running then m[k].expiresAt else Some(now + window);
    m[k := Entry(Count(m, k, now) + amount, end)]
  }

  /** A charge always leaves an expiry behind: a counter without one gains one, whatever it holds,
      and a running window is kept. */
  lemma {:induction false} ChargedCounterExpires<K>(m: Table<K>, k: K, now: nat, amount: nat, window: nat)
    ensures var m' := Charged(m, k, now, amount, window);
      && k in m' && m'[k].count == Count(m, k, now) + amount
      && m'[k].expiresAt == if Live(m, k, now) && m[k].expiresAt.Some? then m[k].expiresAt else Some(now + window)
  {}

  /** The commands the scripts are made of. */
  class Redis<K(==)> {
    var table: Table<K>
    var now: nat

    constructor ()
      ensures table == map[] && now == 0
    {
      table, now := map[], 0;
    }

    method Exists(k: K) returns (r: bool)
      ensures r == Live(table, k, now)
    {
      r := k in table && (table[k].expiresAt.None? || now < table[k].expiresAt.value);
    }

    method Get(k: K) returns (r: nat)
      ensures r == Count(table, k, now)
    {
      var live := Exists(k);
      r := if live then table[k].count else 0;
    }

    method IncrBy(k: K, amount: nat) returns (r: nat)
      modifies this`table
      ensures r == Count(old(table), k, now) + amount
      ensures table == old(table)[k := Entry(r, if Live(old(table), k, now) then old(table)[k].expiresAt else None)]
    {
      var live := Exists(k);
      r := if live then table[k].count + amount else amount;
      table := table[k := Entry(r, if live then table[k].expiresAt else None)];
    }

    /** The -1 reply of TTL. */
    method HasNoExpiry(k: K) returns (r: bool)
      ensures r == (Live(table, k, now) && table[k].expiresAt.None?)
    {
      var live := Exists(k);
      r := live && table[k].expiresAt.None?;
    }

    method Expire(k: K, ttl: nat)
      requires k in table
      modifies this`table
      ensures table == old(table)[k := Entry(old(table)[k].count, Some(now + ttl))]
    {
      table := table[k := Entry(table[k].count, Some(now + ttl))];
    }
  }
}
