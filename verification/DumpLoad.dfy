/** Dumping and loading a redis database (redisdl.py): reading keys that may change while
    they are read, and writing them back through pipelines of at most ten thousand keys. */
module DumpLoad {
  import opened Sai

  // -------------------------------------------------------------------- values

  type Key = string
  type Score = real

  /** What redis holds under a key. */
  datatype Stored =
    | StringValue(text: string)
    | ListValue(elements: seq<string>)
    | SetValue(members: set<string>)
    | ZsetValue(scores: map<string, Score>)
    | HashValue(fields: map<string, string>)

  /** With the time it expires, in milliseconds. */
  datatype Held = Held(value: Stored, deadline: Option<int>)

  type Database = map<Key, Held>

  predicate Due(h: Held, now: int) { h.deadline.Some? && h.deadline.value <= now }

  /** What a dump says about a key: a type name and a value. Sets and sorted sets are
      written as lists, in the order redis answers. */
  datatype Dumped =
    | DumpedString(text: string)
    | DumpedList(elements: seq<string>)
    | DumpedSet(members: seq<string>)
    | DumpedZset(pairs: seq<(string, Score)>)
    | DumpedHash(fields: map<string, string>)
    | DumpedOther(typeName: string)

  /** One key of a dump, with its time to live and its expiration time when it has them. */
  datatype Entry = Entry(key: Key, value: Dumped, ttl: Option<real>, expireat: Option<real>)

  // ------------------------------------------------------------------ commands

  datatype Command =
    | Delete(key: Key)
    | Set(key: Key, text: string)
    | Rpush(key: Key, element: string)
    | Sadd(key: Key, member: string)
    | Zadd(key: Key, member: string, score: Score)
    | Hmset(key: Key, fields: map<string, string>)
    | Expire(key: Key, milliseconds: int)
    | ExpireAt(key: Key, at: int)

  /** A key whose time has come is gone before a command looks at it. */
  function Lapsed(db: Database, k: Key, now: int): Database {
    if k in db && Due(db[k], now) then db - {k} else db
  }

  /** The command meets a value of another type. */
  predicate WrongType(db: Database, c: Command) {
    c.key in db &&
    match c
    case Rpush(_, _) => !db[c.key].value.ListValue?
    case Sadd(_, _) => !db[c.key].value.SetValue?
    case Zadd(_, _, _) => !db[c.key].value.ZsetValue?
    case Hmset(_, _) => !db[c.key].value.HashValue?
    case _ => false
  }

  /** Changing a value keeps its expiration. */
  function Assigned(db: Database, k: Key, v: Stored): Database {
    db[k := Held(v, if k in db then db[k].deadline else None)]
  }

  /** An expiration that is not ahead deletes the key. */
  function Dated(db: Database, k: Key, at: int, now: int): Database {
    if k !in db then db else Kept(db, k, Held(db[k].value, Some(at)), now)
  }

  function Kept(db: Database, k: Key, h: Held, now: int): Database {
    if Due(h, now) then db - {k} else db[k := h]
  }

  /** What a command makes of the database when the server's clock is at `now`. */
  function Execute(before: Database, c: Command, now: int): Database {
    var db := Lapsed(before, c.key, now);
    if WrongType(db, c) then db
    else
      match c
      case Delete(k) => db - {k}
      case Set(k, text) => db[k := Held(StringValue(text), None)]
      case Rpush(k, e) => Assigned(db, k, ListValue((if k in db then db[k].value.elements else []) + [e]))
      case Sadd(k, m) => Assigned(db, k, SetValue((if k in db then db[k].value.members else {}) + {m}))
      case Zadd(k, m, score) =>
        Assigned(db, k, ZsetValue((if k in db then db[k].value.scores else map[])[m := score]))
      case Hmset(k, fields) => Assigned(db, k, HashValue((if k in db then db[k].value.fields else map[]) + fields))
      case Expire(k, milliseconds) => Dated(db, k, now + milliseconds, now)
      case ExpireAt(k, at) => Dated(db, k, at, now)
  }

  /** What a server makes of its database on a command. */
  type Interpreter = (Database, Command) -> Database

  function At(now: int): Interpreter { (db, c) => Execute(db, c, now) }

  /** The first `n` commands, in order */
  function ExecuteUpTo(run: Interpreter, db: Database, cs: seq<Command>, n: nat): Database
    requires n <= |cs|
  {
    if n == 0 then db else run(ExecuteUpTo(run, db, cs, n - 1), cs[n - 1])
  }

  function ExecuteAll(run: Interpreter, db: Database, cs: seq<Command>): Database {
    ExecuteUpTo(run, db, cs, |cs|)
  }

  // -------------------------------------------------------------------- writing

  /** `_writer` raises an exception on an unknown type, and `hmset` on an empty mapping. */
  predicate Writable(d: Dumped) { !d.DumpedOther? && !(d.DumpedHash? && d.fields == map[]) }

  predicate WritableUpTo(entries: seq<Entry>, n: nat)
    requires n <= |entries|
  {
    n == 0 || (WritableUpTo(entries, n - 1) && Writable(entries[n - 1].value))
  }

  function Elements(key: Key, elements: seq<string>): seq<Command> {
    seq(|elements|, i requires 0 <= i < |elements| => Rpush(key, elements[i]))
  }

  function Members(key: Key, members: seq<string>): seq<Command> {
    seq(|members|, i requires 0 <= i < |members| => Sadd(key, members[i]))
  }

  function Pairs(key: Key, pairs: seq<(string, Score)>): seq<Command> {
    seq(|pairs|, i requires 0 <= i < |pairs| => Zadd(key, pairs[i].0, pairs[i].1))
  }

  function ValueCommands(key: Key, d: Dumped): seq<Command> {
    match d
    case DumpedString(text) => [Set(key, text)]
    case DumpedList(elements) => Elements(key, elements)
    case DumpedSet(members) => Members(key, members)
    case DumpedZset(pairs) => Pairs(key, pairs)
    case DumpedHash(fields) => [Hmset(key, fields)]
    case DumpedOther(_) => []
  }

  /** `int(x * 1000)`, which truncates */
  function Milliseconds(x: real): int {
    if x >= 0.0 then (x * 1000.0).Floor else -(-x * 1000.0).Floor
  }

  function ExpireCommands(e: Entry, useExpireat: bool): seq<Command> {
    if useExpireat then
      if e.expireat.Some? then [ExpireAt(e.key, Milliseconds(e.expireat.value))]
      else if e.ttl.Some? then [Expire(e.key, Milliseconds(e.ttl.value))] else []
    else
      if e.ttl.Some? then [Expire(e.key, Milliseconds(e.ttl.value))]
      else if e.expireat.Some? then [ExpireAt(e.key, Milliseconds(e.expireat.value))] else []
  }

  /** The commands `_writer` queues for a key. */
  function Commands(e: Entry, useExpireat: bool): seq<Command> {
    [Delete(e.key)] + ValueCommands(e.key, e.value) + ExpireCommands(e, useExpireat)
  }

  /** The commands of the first `n` keys, in order */
  function CommandsUpTo(entries: seq<Entry>, n: nat, useExpireat: bool): seq<Command>
    requires n <= |entries|
  {
    if n == 0 then [] else CommandsUpTo(entries, n - 1, useExpireat) + Commands(entries[n - 1], useExpireat)
  }

  function AllCommands(entries: seq<Entry>, useExpireat: bool): seq<Command> {
    CommandsUpTo(entries, |entries|, useExpireat)
  }

  const BATCH: nat := 10000

  /** Full batches, and the rest if there is one. */
  function BatchSizes(n: nat): seq<nat> {
    FullBatches(n / BATCH) + if n % BATCH == 0 then [] else [n % BATCH]
  }

  class Server {
    var db: Database
    const run: Interpreter
    ghost const initial: Database
    ghost var executed: seq<Command>     // history

    /** The database is what the commands executed so far have made of the initial one. */
    ghost predicate Valid()
      reads this
    {
      forall cs {:trigger ExecuteAll(run, initial, cs)} :: cs == executed ==> db == ExecuteAll(run, initial, cs)
    }

    constructor (run: Interpreter, db: Database)
      ensures Valid() && this.run == run && this.db == db && executed == []
    {
      this.db := db;
      this.run := run;
      initial := db;
      executed := [];
    }

    /** `p.execute()`: the queued commands, in order */
    method Run(queue: seq<Command>)
      requires Valid()
      modifies this
      ensures Valid() && executed == old(executed) + queue
    {
      assert db == ExecuteAll(run, initial, executed);
      var i := 0;
      while i < |queue|
        invariant 0 <= i <= |queue| && executed == old(executed)
        invariant db == ExecuteUpTo(run, old(db), queue, i)
      {
        db := run(db, queue[i]);
        i := i + 1;
      }
      ExecuteAppend(run, initial, executed, queue);
      executed := executed + queue;
    }

    /** One turn of the loop: a pipeline is begun when the counter is zero and executed when
        it becomes zero again. */
    method LoadOne(entries: seq<Entry>, useExpireat: bool, i: nat, counter: nat, queue: seq<Command>,
                   ghost before: seq<Command>)
      returns (counter': nat, queue': seq<Command>)
      requires Valid() && counter < BATCH
      requires i < |entries| && Midway(entries, useExpireat, i, counter, queue, before, executed)
      modifies this
      ensures Valid() && counter' == if counter + 1 == BATCH then 0 else counter + 1
      ensures Midway(entries, useExpireat, i + 1, counter', queue', before, executed)
    {
      TurnKeeps(entries, useExpireat, i, counter, queue, before, executed);
      queue' := if counter == 0 then [] else queue;
      queue' := queue' + Commands(entries[i], useExpireat);
      counter' := (counter + 1) % BATCH;
      if counter' == 0 {
        Run(queue');
      }
    }

    method LoadLast(entries: seq<Entry>, useExpireat: bool, counter: nat, queue: seq<Command>,
                    ghost before: seq<Command>)
      requires Valid() && Midway(entries, useExpireat, |entries|, counter, queue, before, executed)
      modifies this
      ensures Valid() && executed == before + CommandsUpTo(entries, |entries|, useExpireat)
    {
      if counter != 0 {
        LastTurn(entries, useExpireat, |entries|, counter, queue, before, executed);
        Run(queue);
      }
    }

    method LoadNext(entries: seq<Entry>, useExpireat: bool, i: nat, counter: nat, queue: seq<Command>,
                    ghost before: seq<Command>, ghost batches: seq<nat>)
      returns (counter': nat, queue': seq<Command>, ghost batches': seq<nat>)
      requires Valid() && i < |entries| && WritableUpTo(entries, i) && Writable(entries[i].value)
      requires InBatch(i, counter, batches)
      requires Midway(entries, useExpireat, i, counter, queue, before, executed)
      modifies this
      ensures Valid() && WritableUpTo(entries, i + 1)
      ensures InBatch(i + 1, counter', batches')
      ensures Midway(entries, useExpireat, i + 1, counter', queue', before, executed)
    {
      counter', queue' := LoadOne(entries, useExpireat, i, counter, queue, before);
      batches' := NextBatches(i, counter', batches);
    }

    /** The loop of `loads` and `load_streaming`. It ends early where an exception is raised. */
    method LoadLoop(entries: seq<Entry>, useExpireat: bool)
      returns (written: nat, counter: nat, queue: seq<Command>, ghost batches: seq<nat>)
      requires Valid()
      modifies this
      ensures Valid() && written <= |entries| && WritableUpTo(entries, written)
      ensures written < |entries| ==> !Writable(entries[written].value)
      ensures InBatch(written, counter, batches)
      ensures Midway(entries, useExpireat, written, counter, queue, old(executed), executed)
    {
      counter, queue, batches, written := 0, [], [], 0;
      ghost var before := executed;
      assert before == before + CommandsUpTo(entries, 0, useExpireat);
      while written < |entries|
        invariant Valid() && written <= |entries|
        invariant WritableUpTo(entries, written)
        invariant InBatch(written, counter, batches)
        invariant Midway(entries, useExpireat, written, counter, queue, before, executed)
      {
        if !Writable(entries[written].value) {
          return;
        }
        counter, queue, batches := LoadNext(entries, useExpireat, written, counter, queue, before, batches);
        written := written + 1;
      }
    }

    method LoadBatches(entries: seq<Entry>, useExpireat: bool) returns (written: nat, ghost batches: seq<nat>)
      requires Valid()
      modifies this
      ensures Valid() && written <= |entries| && WritableUpTo(entries, written)
      ensures written < |entries| ==> !Writable(entries[written].value)
      ensures written == |entries| ==> batches == BatchSizes(|entries|)
      ensures executed == old(executed) + CommandsUpTo(entries, Executed(written, |entries|), useExpireat)
    {
      ghost var before := executed;
      var counter, queue;
      written, counter, queue, batches := LoadLoop(entries, useExpireat);
      BatchCounts(written, counter, batches);
      if written == |entries| {
        LoadLast(entries, useExpireat, counter, queue, before);
        if counter != 0 {
          batches := batches + [counter];
        }
      }
    }

    /** `loads` and `load_streaming`: every key's commands are executed once, in order, in
        batches of at most ten thousand keys. A key that cannot be written raises an
        exception, which loses the keys of its batch. */
    method Load(entries: seq<Entry>, useExpireat: bool) returns (written: nat, ghost batches: seq<nat>)
      requires Valid()
      modifies this
      ensures Valid() && written <= |entries| && WritableUpTo(entries, written)
      ensures written < |entries| ==> !Writable(entries[written].value)
      ensures written == |entries| ==> batches == BatchSizes(|entries|)
      ensures executed == old(executed) + CommandsUpTo(entries, Executed(written, |entries|), useExpireat)
      ensures db == ExecuteAll(run, old(db), CommandsUpTo(entries, Executed(written, |entries|), useExpireat))
    {
      assert db == ExecuteAll(run, initial, executed);
      ghost var before := executed;
      written, batches := LoadBatches(entries, useExpireat);
      assert db == ExecuteAll(run, initial, executed);
      ExecuteAppend(run, initial, before, CommandsUpTo(entries, Executed(written, |entries|), useExpireat));
    }
  }

  /** How many keys have been executed when the loop ended after `written` of `all`. */
  function Executed(written: nat, all: nat): (n: nat)
    ensures n <= written
  {
    if written == all then written else written - written % BATCH
  }

  /** Where the loop stands before key `i`: the keys before the last `counter` have been
      executed, and the queue holds the commands of those. */
  ghost predicate Midway(entries: seq<Entry>, useExpireat: bool, i: nat, counter: nat, queue: seq<Command>,
                         before: seq<Command>, executed: seq<Command>)
    requires i <= |entries|
  {
    && counter <= i
    && executed == before + CommandsUpTo(entries, i - counter, useExpireat)
    && (counter != 0 ==>
          CommandsUpTo(entries, i - counter, useExpireat) + queue == CommandsUpTo(entries, i, useExpireat))
  }

  lemma TurnKeeps(entries: seq<Entry>, useExpireat: bool, i: nat, counter: nat, queue: seq<Command>,
                  before: seq<Command>, executed: seq<Command>)
    requires i < |entries| && Midway(entries, useExpireat, i, counter, queue, before, executed)
    ensures var next := (if counter == 0 then [] else queue) + Commands(entries[i], useExpireat);
            && Midway(entries, useExpireat, i + 1, counter + 1, next, before, executed)
            && Midway(entries, useExpireat, i + 1, 0, next, before, executed + next)
  {
    var p := if counter == 0 then [] else queue;
    var done := CommandsUpTo(entries, i - counter, useExpireat);
    assert done + [] == done;
    QueueGrows(entries, i, done, p, useExpireat);
    Regroup(before, done, p + Commands(entries[i], useExpireat));
  }

  lemma LastTurn(entries: seq<Entry>, useExpireat: bool, i: nat, counter: nat, queue: seq<Command>,
                 before: seq<Command>, executed: seq<Command>)
    requires i <= |entries| && counter != 0 && Midway(entries, useExpireat, i, counter, queue, before, executed)
    ensures executed + queue == before + CommandsUpTo(entries, i, useExpireat)
  {
    Regroup(before, CommandsUpTo(entries, i - counter, useExpireat), queue);
  }

  function FullBatches(n: nat): seq<nat> { if n == 0 then [] else FullBatches(n - 1) + [BATCH] }

  /** Before key `i`: full batches so far, and `counter` keys in the one begun. */
  ghost predicate InBatch(i: nat, counter: nat, batches: seq<nat>) {
    counter < BATCH && i == BATCH * |batches| + counter && batches == FullBatches(|batches|)
  }

  /** The batches once key `i` is in; the counter is back at zero when it filled one. */
  ghost function NextBatches(i: nat, counter': nat, batches: seq<nat>): (next: seq<nat>)
    ensures forall c: nat :: InBatch(i, c, batches) && counter' == (if c + 1 == BATCH then 0 else c + 1) ==>
              InBatch(i + 1, counter', next)
  {
    if counter' == 0 then batches + [BATCH] else batches
  }

  /** No batch is empty or over ten thousand keys, all but the last are full, and together
      they hold all keys. */
  lemma BatchesBounded(n: nat, i: nat)
    requires i < |BatchSizes(n)|
    ensures 0 < BatchSizes(n)[i] <= 10000
    ensures i < |BatchSizes(n)| - 1 ==> BatchSizes(n)[i] == 10000
    ensures 10000 * (|BatchSizes(n)| - 1) + BatchSizes(n)[|BatchSizes(n)| - 1] == n
  {
    AllFull(n / BATCH, if i < n / BATCH then i else 0);
    if n >= BATCH {
      AllFull(n / BATCH, n / BATCH - 1);
    }
  }

  lemma {:induction false} AllFull(n: nat, i: nat)
    ensures |FullBatches(n)| == n && (i < n ==> FullBatches(n)[i] == BATCH)
  {
    if n > 0 {
      AllFull(n - 1, i);
    }
  }

  lemma BatchCounts(i: nat, counter: nat, batches: seq<nat>)
    requires InBatch(i, counter, batches)
    ensures counter == i % BATCH
    ensures BatchSizes(i) == if counter == 0 then batches else batches + [counter]
  {
    assert i / BATCH == |batches|;
    assert batches + [] == batches;
  }

  lemma QueueGrows(entries: seq<Entry>, i: nat, done: seq<Command>, queue: seq<Command>, useExpireat: bool)
    requires i < |entries| && done + queue == CommandsUpTo(entries, i, useExpireat)
    ensures done + (queue + Commands(entries[i], useExpireat)) == CommandsUpTo(entries, i + 1, useExpireat)
  {
    Regroup(done, queue, Commands(entries[i], useExpireat));
  }

  lemma Regroup(a: seq<Command>, b: seq<Command>, c: seq<Command>)
    ensures a + (b + c) == (a + b) + c
  {
  }

  lemma {:induction false} ExecuteFirst(run: Interpreter, db: Database, a: seq<Command>, b: seq<Command>, n: nat)
    requires n <= |a|
    ensures ExecuteUpTo(run, db, a + b, n) == ExecuteUpTo(run, db, a, n)
  {
    if n > 0 {
      ExecuteFirst(run, db, a, b, n - 1);
    }
  }

  lemma {:induction false} ExecuteRest(run: Interpreter, db: Database, a: seq<Command>, b: seq<Command>, n: nat)
    requires n <= |b|
    ensures ExecuteUpTo(run, db, a + b, |a| + n) == ExecuteUpTo(run, ExecuteAll(run, db, a), b, n)
  {
    if n == 0 {
      ExecuteFirst(run, db, a, b, |a|);
    } else {
      ExecuteRest(run, db, a, b, n - 1);
    }
  }

  lemma ExecuteAppend(run: Interpreter, db: Database, a: seq<Command>, b: seq<Command>)
    ensures ExecuteAll(run, db, a + b) == ExecuteAll(run, ExecuteAll(run, db, a), b)
  {
    ExecuteRest(run, db, a, b, |b|);
  }

  lemma OneRun(run: Interpreter, db: Database, c: Command)
    ensures ExecuteAll(run, db, [c]) == run(db, c)
  {
    assert ExecuteUpTo(run, db, [c], 0) == db;
  }

  // ------------------------------------------------------------------ restoring

  /** What a dumped value denotes. */
  function Content(d: Dumped): Option<Stored> {
    match d
    case DumpedString(text) => Some(StringValue(text))
    case DumpedList(elements) => if elements == [] then None else Some(ListValue(elements))
    case DumpedSet(members) => if members == [] then None else Some(SetValue(ToSet(members)))
    case DumpedZset(pairs) => if pairs == [] then None else Some(ZsetValue(Scores(pairs)))
    case DumpedHash(fields) => Some(HashValue(fields))
    case DumpedOther(_) => None
  }

  function ToSet(members: seq<string>): set<string> { set m | m in members }

  function Scores(pairs: seq<(string, Score)>): map<string, Score> {
    if pairs == [] then map[] else Scores(pairs[..|pairs| - 1])[pairs[|pairs| - 1].0 := pairs[|pairs| - 1].1]
  }

  function Restored(db: Database, key: Key, d: Dumped): Database {
    match Content(d) case None => db - {key} case Some(v) => db[key := Held(v, None)]
  }

  lemma AddElement(db: Database, key: Key, elements: seq<string>, e: string, now: int)
    requires key !in db
    ensures Execute(Restored(db, key, DumpedList(elements)), Rpush(key, e), now)
         == Restored(db, key, DumpedList(elements + [e]))
  {
    var d := Restored(db, key, DumpedList(elements));
    Rewrite(db, key, d, Held(ListValue(elements + [e]), None));
    assert Execute(d, Rpush(key, e), now) == d[key := Held(ListValue(elements + [e]), None)];
  }

  lemma AddMember(db: Database, key: Key, members: seq<string>, m: string, now: int)
    requires key !in db
    ensures Execute(Restored(db, key, DumpedSet(members)), Sadd(key, m), now)
         == Restored(db, key, DumpedSet(members + [m]))
  {
    var d := Restored(db, key, DumpedSet(members));
    assert ToSet([]) == {} && ToSet(members + [m]) == ToSet(members) + {m};
    Rewrite(db, key, d, Held(SetValue(ToSet(members + [m])), None));
    assert Execute(d, Sadd(key, m), now) == d[key := Held(SetValue(ToSet(members + [m])), None)];
  }

  lemma AddScore(db: Database, key: Key, pairs: seq<(string, Score)>, p: (string, Score), now: int)
    requires key !in db
    ensures Execute(Restored(db, key, DumpedZset(pairs)), Zadd(key, p.0, p.1), now)
         == Restored(db, key, DumpedZset(pairs + [p]))
  {
    var d := Restored(db, key, DumpedZset(pairs));
    assert (pairs + [p])[..|pairs|] == pairs;
    assert Scores(pairs + [p]) == Scores(pairs)[p.0 := p.1];
    Rewrite(db, key, d, Held(ZsetValue(Scores(pairs + [p])), None));
    assert Execute(d, Zadd(key, p.0, p.1), now) == d[key := Held(ZsetValue(Scores(pairs + [p])), None)];
  }

  lemma Rewrite(db: Database, key: Key, d: Database, h: Held)
    requires d == db - {key} || (key in d && d == db[key := d[key]])
    ensures d[key := h] == db[key := h]
  {
    if d == db - {key} {
      assert d[key := h].Keys == db[key := h].Keys;
    }
  }

  /** Commands that lead from each state to the next lead from the first to the last. */
  lemma {:induction false} Traced(run: Interpreter, states: seq<Database>, cs: seq<Command>, n: nat)
    requires n <= |cs| && |states| == |cs| + 1
    requires forall i :: 0 <= i < |cs| ==> run(states[i], cs[i]) == states[i + 1]
    ensures ExecuteUpTo(run, states[0], cs, n) == states[n]
  {
    if n > 0 {
      Traced(run, states, cs, n - 1);
    }
  }

  lemma ElementsRun(db: Database, key: Key, elements: seq<string>, now: int)
    requires key !in db
    ensures ExecuteAll(At(now), db, Elements(key, elements)) == Restored(db, key, DumpedList(elements))
  {
    var states := seq(|elements| + 1, i requires 0 <= i <= |elements| => Restored(db, key, DumpedList(elements[..i])));
    forall i | 0 <= i < |elements| ensures At(now)(states[i], Elements(key, elements)[i]) == states[i + 1] {
      AddElement(db, key, elements[..i], elements[i], now);
      assert elements[..i + 1] == elements[..i] + [elements[i]];
    }
    Traced(At(now), states, Elements(key, elements), |elements|);
    assert db - {key} == db && elements[..|elements|] == elements;
  }

  lemma MembersRun(db: Database, key: Key, members: seq<string>, now: int)
    requires key !in db
    ensures ExecuteAll(At(now), db, Members(key, members)) == Restored(db, key, DumpedSet(members))
  {
    var states := seq(|members| + 1, i requires 0 <= i <= |members| => Restored(db, key, DumpedSet(members[..i])));
    forall i | 0 <= i < |members| ensures At(now)(states[i], Members(key, members)[i]) == states[i + 1] {
      AddMember(db, key, members[..i], members[i], now);
      assert members[..i + 1] == members[..i] + [members[i]];
    }
    Traced(At(now), states, Members(key, members), |members|);
    assert db - {key} == db && members[..|members|] == members;
  }

  lemma PairsRun(db: Database, key: Key, pairs: seq<(string, Score)>, now: int)
    requires key !in db
    ensures ExecuteAll(At(now), db, Pairs(key, pairs)) == Restored(db, key, DumpedZset(pairs))
  {
    var states := seq(|pairs| + 1, i requires 0 <= i <= |pairs| => Restored(db, key, DumpedZset(pairs[..i])));
    forall i | 0 <= i < |pairs| ensures At(now)(states[i], Pairs(key, pairs)[i]) == states[i + 1] {
      AddScore(db, key, pairs[..i], pairs[i], now);
      assert pairs[..i + 1] == pairs[..i] + [pairs[i]];
    }
    Traced(At(now), states, Pairs(key, pairs), |pairs|);
    assert db - {key} == db && pairs[..|pairs|] == pairs;
  }

  lemma ValueRuns(db: Database, key: Key, d: Dumped, now: int)
    requires key !in db && Writable(d)
    ensures ExecuteAll(At(now), db, ValueCommands(key, d)) == Restored(db, key, d)
  {
    match d
    case DumpedString(text) => OneRun(At(now), db, Set(key, text));
    case DumpedList(elements) => ElementsRun(db, key, elements, now);
    case DumpedSet(members) => MembersRun(db, key, members, now);
    case DumpedZset(pairs) => PairsRun(db, key, pairs, now);
    case DumpedHash(fields) =>
      OneRun(At(now), db, Hmset(key, fields));
      assert map[] + fields == fields;
  }

  /** When a loaded key expires: `expireat` is a time, `ttl` counts from the load. */
  function Deadline(e: Entry, now: int, useExpireat: bool): Option<int> {
    if e.expireat.Some? && (useExpireat || e.ttl.None?) then Some(Milliseconds(e.expireat.value))
    else if e.ttl.Some? then Some(now + Milliseconds(e.ttl.value))
    else None
  }

  lemma ExpireRuns(db: Database, e: Entry, useExpireat: bool, now: int)
    requires e.key in db ==> db[e.key].deadline == None
    ensures ExecuteAll(At(now), db, ExpireCommands(e, useExpireat))
         == if e.key in db then Kept(db, e.key, Held(db[e.key].value, Deadline(e, now, useExpireat)), now) else db
  {
    if ExpireCommands(e, useExpireat) != [] {
      OneRun(At(now), db, ExpireCommands(e, useExpireat)[0]);
    } else if e.key in db {
      assert db[e.key := db[e.key]] == db;
    }
  }

  /** The dumped value with its deadline, unless that is not ahead. */
  function RestoredUntil(db: Database, e: Entry, now: int, useExpireat: bool): Database {
    match Content(e.value)
    case None => db - {e.key}
    case Some(v) => Kept(db, e.key, Held(v, Deadline(e, now, useExpireat)), now)
  }

  /** Whatever the key held before, its commands leave it holding the dumped value until
      the dumped expiration, and delete it if that has passed. */
  lemma EntryRestores(db: Database, e: Entry, useExpireat: bool, now: int)
    requires Writable(e.value)
    ensures ExecuteAll(At(now), db, Commands(e, useExpireat)) == RestoredUntil(db, e, now, useExpireat)
  {
    OneRun(At(now), db, Delete(e.key));
    ExecuteAppend(At(now), db, [Delete(e.key)], ValueCommands(e.key, e.value));
    ExecuteAppend(At(now), db, [Delete(e.key)] + ValueCommands(e.key, e.value), ExpireCommands(e, useExpireat));
    DeleteRuns(db, e.key, now);
    ValueRuns(db - {e.key}, e.key, e.value, now);
    RestoredClean(db, e.key, e.value);
    ExpireRuns(Restored(db, e.key, e.value), e, useExpireat, now);
    RestoredDated(db, e, useExpireat, now);
  }

  lemma DeleteRuns(db: Database, key: Key, now: int)
    ensures Execute(db, Delete(key), now) == db - {key}
  {
    assert db - {key} - {key} == db - {key};
  }

  lemma RestoredDated(db: Database, e: Entry, useExpireat: bool, now: int)
    ensures RestoredUntil(db, e, now, useExpireat) ==
      var d := Restored(db, e.key, e.value);
      if e.key in d then Kept(d, e.key, Held(d[e.key].value, Deadline(e, now, useExpireat)), now) else d
  {
    if Content(e.value).Some? {
      var h := Held(Content(e.value).value, None);
      assert db[e.key := h] - {e.key} == db - {e.key};
    }
  }

  lemma RestoredClean(db: Database, key: Key, d: Dumped)
    ensures Restored(db - {key}, key, d) == Restored(db, key, d)
  {
    var a, b := Restored(db - {key}, key, d), Restored(db, key, d);
    assert a.Keys == b.Keys && forall k :: k in a ==> a[k] == b[k];
  }

  /** `d` is a dump of `v`: sets and sorted sets list each member once, in any order. */
  ghost predicate IsDumpOf(d: Dumped, v: Stored) {
    match v
    case StringValue(text) => d == DumpedString(text)
    case ListValue(elements) => d == DumpedList(elements)
    case SetValue(members) => d.DumpedSet? && (forall m :: m in d.members <==> m in members)
    case ZsetValue(scores) =>
      && d.DumpedZset?
      && (forall m :: m in scores <==> exists i :: 0 <= i < |d.pairs| && d.pairs[i].0 == m)
      && (forall i :: 0 <= i < |d.pairs| ==> d.pairs[i].0 in scores && d.pairs[i].1 == scores[d.pairs[i].0])
    case HashValue(fields) => d == DumpedHash(fields)
  }

  /** Redis keeps no empty list, set, sorted set or hash. */
  predicate NotEmpty(v: Stored) {
    match v
    case StringValue(_) => true
    case ListValue(elements) => elements != []
    case SetValue(members) => members != {}
    case ZsetValue(scores) => scores != map[]
    case HashValue(fields) => fields != map[]
  }

  lemma {:induction false} ScoresOf(pairs: seq<(string, Score)>, scores: map<string, Score>, n: nat)
    requires n <= |pairs|
    requires forall i :: 0 <= i < |pairs| ==> pairs[i].0 in scores && pairs[i].1 == scores[pairs[i].0]
    ensures forall m :: m in Scores(pairs[..n]) <==> exists i :: 0 <= i < n && pairs[i].0 == m
    ensures forall m <- Scores(pairs[..n]) :: m in scores && Scores(pairs[..n])[m] == scores[m]
  {
    if n > 0 {
      assert pairs[..n][..n - 1] == pairs[..n - 1];
      ScoresOf(pairs, scores, n - 1);
    }
  }

  lemma ScoresDenote(pairs: seq<(string, Score)>, scores: map<string, Score>)
    requires forall m :: m in scores <==> exists i :: 0 <= i < |pairs| && pairs[i].0 == m
    requires forall i :: 0 <= i < |pairs| ==> pairs[i].0 in scores && pairs[i].1 == scores[pairs[i].0]
    ensures Scores(pairs) == scores
  {
    ScoresOf(pairs, scores, |pairs|);
    assert pairs[..|pairs|] == pairs;
  }

  /** Dumping and loading is the identity on every value redis can hold. */
  lemma DumpDenotes(d: Dumped, v: Stored)
    requires IsDumpOf(d, v) && NotEmpty(v)
    ensures Writable(d) && Content(d) == Some(v)
  {
    match v
    case StringValue(_) =>
    case ListValue(_) =>
    case SetValue(members) =>
      var m :| m in members;
      assert ToSet(d.members) == members;
    case ZsetValue(scores) =>
      var m :| m in scores;
      ScoresDenote(d.pairs, scores);
    case HashValue(_) =>
  }

  /** The dumped times of a value that expires at `deadline`, when the dump was taken at
      `at` by a client whose clock agrees with the server's. */
  predicate IsTimeOf(e: Entry, deadline: Option<int>, at: int) {
    match deadline
    case None => e.ttl == None && e.expireat == None
    case Some(t) => e.ttl == Some((t - at) as real / 1000.0) && e.expireat == Some(t as real / 1000.0)
  }

  /** The entry dumps what `source` holds under its key at time `at`. */
  ghost predicate Dumps(e: Entry, source: Database, at: int) {
    && e.key in source && !Due(source[e.key], at)
    && IsDumpOf(e.value, source[e.key].value) && NotEmpty(source[e.key].value)
    && IsTimeOf(e, source[e.key].deadline, at)
  }

  ghost predicate IsDump(entries: seq<Entry>, source: Database, at: int) {
    forall i :: 0 <= i < |entries| ==> Dumps(entries[i], source, at)
  }

  function KeysUpTo(entries: seq<Entry>, n: nat): set<Key>
    requires n <= |entries|
  {
    set i | 0 <= i < n :: entries[i].key
  }

  /** The expiration is put off by `delay`. */
  function Delayed(h: Held, delay: int): Held {
    Held(h.value, match h.deadline case None => None case Some(t) => Some(t + delay))
  }

  /** What loading the keys at `now` brings: their values with expirations put off by
      `delay`, where that is still ahead. */
  function Survivors(source: Database, keys: set<Key>, delay: int, now: int): Database {
    map k | k in source && k in keys && !Due(Delayed(source[k], delay), now) :: Delayed(source[k], delay)
  }

  function Loaded(target: Database, source: Database, keys: set<Key>, delay: int, now: int): Database {
    (target - keys) + Survivors(source, keys, delay, now)
  }

  /** `expireat` keeps the time a key expires; `ttl` keeps the time it has left. */
  function Delay(useExpireat: bool, at: int, now: int): int { if useExpireat then 0 else now - at }

  /** A dumped time reads back as the time it was. */
  lemma DeadlineReadsBack(e: Entry, h: Held, at: int, now: int, useExpireat: bool)
    requires IsTimeOf(e, h.deadline, at) && !Due(h, at)
    ensures Held(h.value, Deadline(e, now, useExpireat)) == Delayed(h, Delay(useExpireat, at, now))
  {
    if h.deadline.Some? {
      var t := h.deadline.value;
      MillisecondsOf(t);
      MillisecondsOf(t - at);
    }
  }

  lemma MillisecondsOf(n: int)
    ensures Milliseconds(n as real / 1000.0) == n
  {
    var x := n as real / 1000.0;
    assert x * 1000.0 == n as real && -x * 1000.0 == (-n) as real;
  }

  lemma DumpedEntryRestores(db: Database, e: Entry, source: Database, at: int, now: int, useExpireat: bool)
    requires Dumps(e, source, at)
    ensures ExecuteAll(At(now), db, Commands(e, useExpireat))
         == Kept(db, e.key, Delayed(source[e.key], Delay(useExpireat, at, now)), now)
  {
    DumpDenotes(e.value, source[e.key].value);
    EntryRestores(db, e, useExpireat, now);
    DeadlineReadsBack(e, source[e.key], at, now, useExpireat);
  }

  /** The first `n` entries, each executed on what the one before left. */
  function EntriesRun(run: Interpreter, target: Database, entries: seq<Entry>, n: nat, useExpireat: bool): Database
    requires n <= |entries|
  {
    if n == 0 then target
    else ExecuteAll(run, EntriesRun(run, target, entries, n - 1, useExpireat), Commands(entries[n - 1], useExpireat))
  }

  lemma {:induction false} CommandsRun(run: Interpreter, target: Database, entries: seq<Entry>, n: nat,
                                       useExpireat: bool)
    requires n <= |entries|
    ensures ExecuteAll(run, target, CommandsUpTo(entries, n, useExpireat))
         == EntriesRun(run, target, entries, n, useExpireat)
  {
    if n > 0 {
      CommandsRun(run, target, entries, n - 1, useExpireat);
      ExecuteAppend(run, target, CommandsUpTo(entries, n - 1, useExpireat), Commands(entries[n - 1], useExpireat));
    }
  }

  lemma EntryLoaded(target: Database, source: Database, keys: set<Key>, e: Entry, at: int, now: int,
                    useExpireat: bool)
    requires Dumps(e, source, at)
    ensures ExecuteAll(At(now), Loaded(target, source, keys, Delay(useExpireat, at, now), now),
                       Commands(e, useExpireat))
         == Loaded(target, source, keys + {e.key}, Delay(useExpireat, at, now), now)
  {
    var delay := Delay(useExpireat, at, now);
    DumpedEntryRestores(Loaded(target, source, keys, delay, now), e, source, at, now, useExpireat);
    LoadedGrows(target, source, keys, e.key, delay, now);
  }

  lemma LoadedGrows(target: Database, source: Database, keys: set<Key>, k: Key, delay: int, now: int)
    requires k in source
    ensures Kept(Loaded(target, source, keys, delay, now), k, Delayed(source[k], delay), now)
         == Loaded(target, source, keys + {k}, delay, now)
  {
    var h, was := Delayed(source[k], delay), Survivors(source, keys, delay, now);
    var rest := target - keys - {k};
    assert target - (keys + {k}) == rest;
    if Due(h, now) {
      assert Survivors(source, keys + {k}, delay, now) == was;
      assert k !in was;
      assert (target - keys) + was - {k} == rest + was;
    } else {
      assert Survivors(source, keys + {k}, delay, now) == was[k := h];
      assert ((target - keys) + was)[k := h] == rest + was[k := h];
    }
  }

  /** What was dumped can be written. */
  lemma {:induction false} DumpWritable(source: Database, entries: seq<Entry>, n: nat, at: int)
    requires IsDump(entries, source, at) && n <= |entries|
    ensures WritableUpTo(entries, n)
  {
    if n > 0 {
      DumpWritable(source, entries, n - 1, at);
      assert Dumps(entries[n - 1], source, at);
      DumpDenotes(entries[n - 1].value, source[entries[n - 1].key].value);
    }
  }

  lemma NothingLoaded(target: Database, source: Database, delay: int, now: int)
    ensures Loaded(target, source, {}, delay, now) == target
  {
    assert Survivors(source, {}, delay, now) == map[];
  }

  /** Entry `n - 1` brings what the first `n` entries should from what those before should. */
  ghost predicate Brings(run: Interpreter, target: Database, source: Database, entries: seq<Entry>, n: nat,
                         delay: int, now: int, useExpireat: bool)
    requires 0 < n <= |entries|
  {
    ExecuteAll(run, Loaded(target, source, KeysUpTo(entries, n - 1), delay, now), Commands(entries[n - 1], useExpireat))
      == Loaded(target, source, KeysUpTo(entries, n), delay, now)
  }

  lemma EntryBrings(target: Database, source: Database, entries: seq<Entry>, n: nat, at: int, now: int,
                    useExpireat: bool)
    requires 0 < n <= |entries| && IsDump(entries, source, at)
    ensures Brings(At(now), target, source, entries, n, Delay(useExpireat, at, now), now, useExpireat)
  {
    assert Dumps(entries[n - 1], source, at);
    assert KeysUpTo(entries, n) == KeysUpTo(entries, n - 1) + {entries[n - 1].key};
    EntryLoaded(target, source, KeysUpTo(entries, n - 1), entries[n - 1], at, now, useExpireat);
  }

  lemma {:induction false} EntriesBring(run: Interpreter, target: Database, source: Database, entries: seq<Entry>,
                                        n: nat, delay: int, now: int, useExpireat: bool)
    requires n <= |entries|
    requires forall i :: 0 < i <= n ==> Brings(run, target, source, entries, i, delay, now, useExpireat)
    ensures EntriesRun(run, target, entries, n, useExpireat)
         == Loaded(target, source, KeysUpTo(entries, n), delay, now)
  {
    if n == 0 {
      assert KeysUpTo(entries, 0) == {};
      NothingLoaded(target, source, delay, now);
    } else {
      EntriesBring(run, target, source, entries, n - 1, delay, now, useExpireat);
      assert Brings(run, target, source, entries, n, delay, now, useExpireat);
    }
  }

  /** Loading a dump restores the type, value and expiration of each dumped key, whatever
      the target held, deletes those whose expiration has passed, and leaves every other
      key alone. */
  lemma LoadRestores(target: Database, source: Database, entries: seq<Entry>, n: nat,
                     at: int, now: int, useExpireat: bool)
    requires IsDump(entries, source, at) && n <= |entries|
    ensures WritableUpTo(entries, n)
    ensures ExecuteAll(At(now), target, CommandsUpTo(entries, n, useExpireat))
         == Loaded(target, source, KeysUpTo(entries, n), Delay(useExpireat, at, now), now)
  {
    DumpWritable(source, entries, n, at);
    CommandsRun(At(now), target, entries, n, useExpireat);
    forall i | 0 < i <= n
      ensures Brings(At(now), target, source, entries, i, Delay(useExpireat, at, now), now, useExpireat)
    {
      EntryBrings(target, source, entries, i, at, now, useExpireat);
    }
    EntriesBring(At(now), target, source, entries, n, Delay(useExpireat, at, now), now, useExpireat);
  }

  /** What `source` holds at `now`. */
  function Alive(source: Database, now: int): Database { map k | k in source && !Due(source[k], now) :: source[k] }

  /** Loading a dump of all of `source` by its expiration times gives the target every
      value `source` would hold now, with its expiration, and leaves the target's other
      keys; loading it by times to live loses no key, and each keeps the time it had left. */
  lemma WholeDumpRestores(target: Database, source: Database, entries: seq<Entry>, at: int, now: int)
    requires IsDump(entries, source, at) && KeysUpTo(entries, |entries|) == source.Keys
    ensures WritableUpTo(entries, |entries|)
    ensures ExecuteAll(At(now), target, AllCommands(entries, true)) == (target - source.Keys) + Alive(source, now)
    ensures ExecuteAll(At(now), target, AllCommands(entries, false))
         == (target - source.Keys) + map k | k in source :: Delayed(source[k], now - at)
  {
    LoadRestores(target, source, entries, |entries|, at, now, true);
    LoadRestores(target, source, entries, |entries|, at, now, false);
    SurvivorsByTime(source, now);
    SurvivorsByTtl(source, entries, at, now);
  }

  lemma SurvivorsByTime(source: Database, now: int)
    ensures Survivors(source, source.Keys, 0, now) == Alive(source, now)
  {
    assert forall k <- source :: Delayed(source[k], 0) == source[k];
  }

  lemma SurvivorsByTtl(source: Database, entries: seq<Entry>, at: int, now: int)
    requires IsDump(entries, source, at) && KeysUpTo(entries, |entries|) == source.Keys
    ensures Survivors(source, source.Keys, now - at, now) == map k | k in source :: Delayed(source[k], now - at)
  {
    forall k | k in source ensures !Due(Delayed(source[k], now - at), now) {
      assert k in KeysUpTo(entries, |entries|);
      var i :| 0 <= i < |entries| && entries[i].key == k;
      assert Dumps(entries[i], source, at);
    }
  }

  // -------------------------------------------------------------------- reading

  /** One attempt of `_read_key`: the key is gone, it changed under the reader, its type is
      unknown, or it was read. */
  datatype Attempt = Gone | Changed | UnknownType | Read(value: Dumped)

  /** `Failed` is an exception: unknown type, or ten attempts in vain. */
  datatype Outcome = Skipped | Yielded(value: Dumped) | Failed

  const ATTEMPTS: nat := 10

  function Decision(a: Attempt): Outcome
    requires !a.Changed?
  {
    match a
    case Gone => Skipped
    case UnknownType => Failed
    case Read(value) => Yielded(value)
  }

  /** The first attempt that is not disturbed */
  predicate Decides(attempts: seq<Attempt>, k: nat) {
    k < |attempts| && !attempts[k].Changed? && forall i :: 0 <= i < k ==> attempts[i].Changed?
  }

  /** The retry loop of `_reader`: the first attempt that is not disturbed decides, and ten
      disturbed ones in a row give up. */
  method ReadKey(attempts: seq<Attempt>) returns (r: Outcome)
    requires |attempts| == 10
    ensures (forall i :: 0 <= i < 10 ==> attempts[i].Changed?) ==> r == Failed
    ensures forall k: nat :: Decides(attempts, k) ==> r == Decision(attempts[k])
  {
    var i := 0;
    while i < ATTEMPTS
      invariant 0 <= i <= ATTEMPTS && forall j :: 0 <= j < i ==> attempts[j].Changed?
    {
      match attempts[i] {
        case Gone => return Skipped;
        case UnknownType => return Failed;
        case Read(value) => return Yielded(value);
        case Changed =>
      }
      i := i + 1;
    }
    r := Failed;
  }
}
