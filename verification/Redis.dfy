/**
 The Redis commands the service issues, on a whole-second clock. Each command is one atomic step;
 `at` is the second in which the server executes it, and the server's clock never runs backwards.
 */
module Redis {
  import opened Wrappers

  /** A counter kept by INCR, or a text. */
  datatype Value = Count(n: int) | Text(text: string)

  datatype Entry = Entry(value: Value, expiry: nat)

  type Table = map<string, Entry>

  const SECOND: nat := 1_000_000_000

  /** The EX/EXPIRE argument for a duration in nanoseconds: whole seconds, at least one. */
  function Seconds(ttl: int): (s: nat)
    ensures s >= 1
    ensures ttl >= SECOND ==> s * SECOND <= ttl < (s + 1) * SECOND
  {
    if ttl / SECOND < 1 then 1 else ttl / SECOND
  }

  predicate Live(t: Table, at: nat, key: string) {
    key in t && at < t[key].expiry
  }

  // ---------- Commands as functions of the table ----------

  /** INCR, and EXPIRE when the counter has just become 1; None is Redis's type error. */
  function Incremented(t: Table, at: nat, key: string, seconds: nat): (Table, Option<int>) {
    if !Live(t, at, key) then (t[key := Entry(Count(1), at + seconds)], Some(1))
    else
      match t[key].value
      case Text(_) => (t, None)
      case Count(n) => (t[key := Entry(Count(n + 1), if n + 1 == 1 then at + seconds else t[key].expiry)], Some(n + 1))
  }

  /** SET key text EX seconds */
  function Stored(t: Table, at: nat, key: string, text: string, seconds: nat): Table {
    t[key := Entry(Text(text), at + seconds)]
  }

  /** SET key text EX seconds NX */
  function Reserved(t: Table, at: nat, key: string, text: string, seconds: nat): (Table, bool) {
    if Live(t, at, key) then (t, false) else (Stored(t, at, key, text, seconds), true)
  }

  /** GET key */
  function Lookup(t: Table, at: nat, key: string): Option<Value> {
    if Live(t, at, key) then Some(t[key].value) else None
  }

  /** TTL key, 0 when there is nothing to wait for */
  function Remaining(t: Table, at: nat, key: string): nat {
    if Live(t, at, key) then t[key].expiry - at else 0
  }

  /** DEL key */
  function Deleted(t: Table, key: string): Table {
    t - {key}
  }

  /** Delete the key if it holds this text. */
  function Released(t: Table, at: nat, key: string, text: string): Table {
    if Lookup(t, at, key) == Some(Text(text)) then Deleted(t, key) else t
  }

  // ---------- The server ----------

  class Server {
    var table: Table
    var clock: nat

    constructor ()
      ensures table == map[] && clock == 0
    {
      table, clock := map[], 0;
    }

    method Increment(key: string, ttl: int, at: nat) returns (count: Option<int>)
      requires clock <= at
      modifies this
      ensures clock == at
      ensures (table, count) == Incremented(old(table), at, key, Seconds(ttl))
    {
      clock := at;
      var current := 0;
      if Live(table, at, key) {
        if table[key].value.Text? {
          return None;
        }
        current := table[key].value.n;
      }
      current := current + 1;
      var expiry := if current == 1 then at + Seconds(ttl) else table[key].expiry;
      table := table[key := Entry(Count(current), expiry)];
      count := Some(current);
    }

    method Set(key: string, text: string, ttl: int, at: nat)
      requires clock <= at
      modifies this
      ensures clock == at
      ensures table == Stored(old(table), at, key, text, Seconds(ttl))
    {
      clock := at;
      table := table[key := Entry(Text(text), at + Seconds(ttl))];
    }

    method Get(key: string, at: nat) returns (value: Option<Value>)
      requires clock <= at
      modifies this`clock
      ensures clock == at
      ensures value == Lookup(table, at, key)
    {
      clock := at;
      value := None;
      if Live(table, at, key) {
        value := Some(table[key].value);
      }
    }

    method Ttl(key: string, at: nat) returns (seconds: nat)
      requires clock <= at
      modifies this`clock
      ensures clock == at
      ensures seconds == Remaining(table, at, key)
    {
      clock := at;
      seconds := 0;
      if Live(table, at, key) {
        seconds := table[key].expiry - at;
      }
    }

    method Delete(key: string, at: nat)
      requires clock <= at
      modifies this
      ensures clock == at
      ensures table == Deleted(old(table), key)
    {
      clock := at;
      table := map k | k in table && k != key :: table[k];
    }

    method Take(key: string, at: nat) returns (value: Option<Value>)
      requires clock <= at
      modifies this
      ensures clock == at
      ensures value == Lookup(old(table), at, key)
      ensures table == Deleted(old(table), key)
    {
      value := Get(key, at);
      table := map k | k in table && k != key :: table[k];
    }

    method Reserve(key: string, text: string, ttl: int, at: nat) returns (ok: bool)
      requires clock <= at
      modifies this
      ensures clock == at
      ensures (table, ok) == Reserved(old(table), at, key, text, Seconds(ttl))
    {
      clock := at;
      ok := !Live(table, at, key);
      if ok {
        table := table[key := Entry(Text(text), at + Seconds(ttl))];
      }
    }

    method Release(key: string, text: string, at: nat)
      requires clock <= at
      modifies this
      ensures clock == at
      ensures table == Released(old(table), at, key, text)
    {
      var current := Get(key, at);
      if current == Some(Text(text)) {
        table := map k | k in table && k != key :: table[k];
      }
    }
  }
}
