/** The shared Redis keyspace: one flat map of string keys with expiry times, the
    two Lua scripts of the updater, the notifier's SET NX, and how the flat map
    refines one guarded register per order. Times are milliseconds. */
module RedisStore {
  import opened Json
  import opened Options
  import opened LuaNumber
  import opened Records

  datatype Value = Document(doc: Json) | Number(n: int) | One

  datatype Entry = Entry(value: Value, expiresAt: int)

  /** Lapsed entries stay in the map; `Live` is what a command sees. */
  type Store = map<string, Entry>

  /** Both guards are set with EX 86400. */
  const TTL := 86_400_000

  function OrderKey(id: string): string { "order:" + id }

  function LsnKey(id: string): string { OrderKey(id) + ":lsn" }

  function EmailKey(id: string, status: string): string { "email_sent:" + id + ":" + status }

  predicate Live(s: Store, key: string, now: int)
  {
    key in s && now < s[key].expiresAt
  }

  /** Lua's `tonumber` of a stored text: None is nil. A fraction compares with the
      integral LSNs as its floor does. */
  function ToNumber(v: Value): Option<int>
  {
    match v
    case Number(n) => Some(Round(n))
    case One => Some(1)
    case Document(doc) =>
      if doc.Num? then Some(Round(doc.n)) else if doc.Float? then Some(doc.r.Floor) else None
  }

  /** The guard both scripts open with. */
  predicate Stale(s: Store, id: string, lsn: int, now: int)
  {
    && Live(s, LsnKey(id), now)
    && ToNumber(s[LsnKey(id)].value).Some?
    && Round(lsn) <= ToNumber(s[LsnKey(id)].value).value
  }

  function LuaUpsert(s: Store, id: string, doc: Json, lsn: int, now: int): Store
  {
    if Stale(s, id, lsn, now) then s
    else s[OrderKey(id) := Entry(Document(doc), now + TTL)][LsnKey(id) := Entry(Number(lsn), now + TTL)]
  }

  function LuaDelete(s: Store, id: string, lsn: int, now: int): Store
  {
    if Stale(s, id, lsn, now) then s
    else (s - {OrderKey(id)})[LsnKey(id) := Entry(Number(lsn), now + TTL)]
  }

  function SetNx(s: Store, key: string, now: int): Store
  {
    if Live(s, key, now) then s else s[key := Entry(One, now + TTL)]
  }

  // ---- the key alphabet -------------------------------------------------

  /** The only way two orders can share a key: one id is the other followed by
      `:lsn`. */
  predicate Apart(a: string, b: string)
  {
    a != b + ":lsn" && b != a + ":lsn"
  }

  predicate ColonFree(id: string)
  {
    ':' !in id
  }

  lemma ColonFreeApart(a: string, b: string)
    requires ColonFree(a) && ColonFree(b)
    ensures Apart(a, b)
  {
    assert (a + ":lsn")[|a|] == ':' && (b + ":lsn")[|b|] == ':';
  }

  lemma OrderKeyInjective(a: string, b: string)
    requires OrderKey(a) == OrderKey(b)
    ensures a == b
  {
    assert OrderKey(a)[6..] == a && OrderKey(b)[6..] == b;
  }

  lemma LsnKeyInjective(a: string, b: string)
    requires LsnKey(a) == LsnKey(b)
    ensures a == b
  {
    var k := LsnKey(a);
    assert k[..|k| - 4] == OrderKey(a) && k[..|k| - 4] == OrderKey(b);
    OrderKeyInjective(a, b);
  }

  /** Distinct orders have disjoint keys exactly when their ids are Apart. */
  lemma KeysDisjoint(a: string, b: string)
    requires a != b
    ensures {OrderKey(a), LsnKey(a)} !! {OrderKey(b), LsnKey(b)} <==> Apart(a, b)
  {
    assert LsnKey(b) == OrderKey(b + ":lsn") && LsnKey(a) == OrderKey(a + ":lsn");
    if OrderKey(a) == OrderKey(b) { OrderKeyInjective(a, b); }
    if LsnKey(a) == LsnKey(b) { LsnKeyInjective(a, b); }
    if OrderKey(a) == LsnKey(b) { OrderKeyInjective(a, b + ":lsn"); }
    if OrderKey(b) == LsnKey(a) { OrderKeyInjective(b, a + ":lsn"); }
  }

  lemma EmailKeyElsewhere(id: string, status: string, order: string)
    ensures EmailKey(id, status) != OrderKey(order) && EmailKey(id, status) != LsnKey(order)
  {
    assert EmailKey(id, status)[0] == 'e' && OrderKey(order)[0] == 'o' && LsnKey(order)[0] == 'o';
  }

  /** The two announced statuses end in different letters, so a notification key
      names its order and status for every id, colons or not. */
  lemma EmailKeyInjective(a: string, s: string, b: string, t: string)
    requires Announced(s) && Announced(t)
    requires EmailKey(a, s) == EmailKey(b, t)
    ensures a == b && s == t
  {
    var k := EmailKey(a, s);
    assert k == "email_sent:" + b + ":" + t;
    assert s[|s| - 3] == k[|k| - 3] == t[|t| - 3];
    assert k[11..|k| - |s| - 1] == a && k[11..|k| - |t| - 1] == b;
  }

  // ---- one register per order -------------------------------------------

  /** What Redis remembers of an order: the LSN of the last accepted event, and
      the document it wrote, or None if it was a delete. */
  datatype Slot = Slot(lsn: int, doc: Option<Json>)

  function DocAt(s: Store, id: string, now: int): Option<Json>
  {
    if Live(s, OrderKey(id), now) && s[OrderKey(id)].value.Document? then Some(s[OrderKey(id)].value.doc) else None
  }

  function SlotAt(s: Store, id: string, now: int): Option<Slot>
  {
    if Live(s, LsnKey(id), now) && s[LsnKey(id)].value.Number?
    then Some(Slot(s[LsnKey(id)].value.n, DocAt(s, id, now)))
    else None
  }

  /** An order's two entries hold what they should, and a document never outlives
      or precedes its LSN: they carry the same expiry. */
  predicate Paired(s: Store, id: string)
  {
    && (LsnKey(id) in s ==> s[LsnKey(id)].value.Number?)
    && (OrderKey(id) in s ==>
          && s[OrderKey(id)].value.Document?
          && LsnKey(id) in s
          && s[OrderKey(id)].expiresAt == s[LsnKey(id)].expiresAt)
  }

  /** The guard's rule: an event that is not newer, as a double, is dropped. */
  predicate Outdated(event: Slot, held: Slot)
  {
    Round(event.lsn) <= Round(held.lsn)
  }

  /** The abstract register: the newest event wins, deletes leave a tombstone. */
  function Absorb(cur: Option<Slot>, event: Slot): Option<Slot>
  {
    if cur.Some? && Outdated(event, cur.value) then cur else Some(event)
  }

  function Script(s: Store, id: string, event: Slot, now: int): Store
  {
    match event.doc
    case Some(doc) => LuaUpsert(s, id, doc, event.lsn, now)
    case None => LuaDelete(s, id, event.lsn, now)
  }

  /** Keyspace refinement, own order: a script on the flat map is Absorb on the
      order's register, and it renews the deadline exactly when it is accepted. */
  lemma ScriptIsAbsorb(s: Store, id: string, event: Slot, now: int)
    requires Paired(s, id)
    ensures Paired(Script(s, id, event, now), id)
    ensures SlotAt(Script(s, id, event, now), id, now) == Absorb(SlotAt(s, id, now), event)
    ensures LsnKey(id) in Script(s, id, event, now)
    ensures Stale(s, id, event.lsn, now) <==> (Script(s, id, event, now) == s && SlotAt(s, id, now).Some?
                                               && Round(event.lsn) <= Round(SlotAt(s, id, now).value.lsn))
    ensures !Stale(s, id, event.lsn, now) ==> Script(s, id, event, now)[LsnKey(id)].expiresAt == now + TTL
  {
    assert |LsnKey(id)| != |OrderKey(id)|;
  }

  /** Keyspace refinement, other orders: nothing another order's script does is
      visible in this one's register or entries. */
  lemma ScriptElsewhere(s: Store, id: string, event: Slot, now: int, other: string, t: int)
    requires id != other && Apart(id, other)
    ensures SlotAt(Script(s, id, event, now), other, t) == SlotAt(s, other, t)
    ensures DocAt(Script(s, id, event, now), other, t) == DocAt(s, other, t)
    ensures Paired(s, other) ==> Paired(Script(s, id, event, now), other)
    ensures LsnKey(other) in Script(s, id, event, now) <==> LsnKey(other) in s
    ensures LsnKey(other) in s ==> Script(s, id, event, now)[LsnKey(other)] == s[LsnKey(other)]
  {
    KeysDisjoint(id, other);
    var own, foreign := {OrderKey(id), LsnKey(id)}, {OrderKey(other), LsnKey(other)};
    assert OrderKey(other) in foreign && LsnKey(other) in foreign && OrderKey(id) in own && LsnKey(id) in own;
    assert OrderKey(other) !in own && LsnKey(other) !in own;
  }

  /** If the ids are not Apart the refinement does fail: a write of order `a:lsn`
      replaces the LSN of order `a` by a document, and then an event of `a` is stale
      only if that document is a number, and not less than the event's LSN. */
  lemma CollisionDropsGuard(s: Store, a: string, doc: Json, lsn: int, now: int, any: int)
    requires !Stale(s, a + ":lsn", lsn, now)
    ensures Stale(LuaUpsert(s, a + ":lsn", doc, lsn, now), a, any, now) <==>
              (doc.Num? && Round(any) <= Round(doc.n)) || (doc.Float? && Round(any) as real <= doc.r)
  {
    assert OrderKey(a + ":lsn") == LsnKey(a);
    assert |LsnKey(a)| != |LsnKey(a + ":lsn")|;
  }

  /** As time passes a register either stays as it is or is forgotten whole. */
  lemma SlotLapses(s: Store, id: string, now: int, later: int)
    requires Paired(s, id) && now <= later
    ensures SlotAt(s, id, later) == if Live(s, LsnKey(id), later) then SlotAt(s, id, now) else None
    ensures SlotAt(s, id, later).None? ==> DocAt(s, id, later).None?
  {
  }
}
