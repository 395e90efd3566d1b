/** Every interleaving of commands that any number of updaters and notifiers send
    to the one Redis: replays, duplicates and stragglers included. Redis runs
    one command at a time, so an interleaving is a sequence with times. */
module RedisClients {
  import opened Options
  import opened LuaNumber
  import opened Records
  import opened RedisStore

  datatype Command = Write(id: string, event: Slot) | Claim(id: string, status: string)

  datatype Timed = Timed(cmd: Command, at: int)

  function Effect(s: Store, c: Timed): Store
  {
    match c.cmd
    case Write(id, event) => Script(s, id, event, c.at)
    case Claim(id, status) => SetNx(s, EmailKey(id, status), c.at)
  }

  function Play(s: Store, cs: seq<Timed>): Store
  {
    if cs == [] then s else Effect(Play(s, cs[..|cs| - 1]), cs[|cs| - 1])
  }

  predicate Ordered(cs: seq<Timed>)
  {
    forall i, j :: 0 <= i < j < |cs| ==> cs[i].at <= cs[j].at
  }

  /** No other order in the trace shares a key with this one. */
  predicate Unshared(cs: seq<Timed>, id: string)
  {
    forall i :: 0 <= i < |cs| && cs[i].cmd.Write? ==> cs[i].cmd.id == id || Apart(cs[i].cmd.id, id)
  }

  predicate Writes(cs: seq<Timed>, id: string, event: Slot)
  {
    exists i :: 0 <= i < |cs| && cs[i].cmd == Write(id, event)
  }

  // ---- the flat keyspace refines registers and marks -----------------------

  /** The abstract state of one order: nothing, or a slot until a deadline. */
  datatype Register = Blank | Held(slot: Slot, deadline: int)

  function RegisterOf(s: Store, id: string): Register
    requires Paired(s, id)
  {
    if LsnKey(id) !in s then Blank
    else
      Held(Slot(s[LsnKey(id)].value.n, if OrderKey(id) in s then Some(s[OrderKey(id)].value.doc) else None),
           s[LsnKey(id)].expiresAt)
  }

  /** A write is taken unless the register is alive and at least as new. */
  function Registered(reg: Register, id: string, cs: seq<Timed>): Register
  {
    if cs == [] then reg
    else
      var before, c := Registered(reg, id, cs[..|cs| - 1]), cs[|cs| - 1];
      if !(c.cmd.Write? && c.cmd.id == id) then before
      else if before.Held? && c.at < before.deadline && Outdated(c.cmd.event, before.slot) then before
      else Held(c.cmd.event, c.at + TTL)
  }

  /** When the mark of a notified pair lapses, if there is one. */
  function MarkOf(s: Store, key: string): Option<int>
  {
    if key in s then Some(s[key].expiresAt) else None
  }

  function MarkAfter(mark: Option<int>, id: string, status: string, cs: seq<Timed>): Option<int>
  {
    if cs == [] then mark
    else
      var before, c := MarkAfter(mark, id, status, cs[..|cs| - 1]), cs[|cs| - 1];
      if c.cmd != Claim(id, status) || (before.Some? && c.at < before.value) then before else Some(c.at + TTL)
  }

  /** Keyspace refinement over whole traces: seen from an order, the one string map
      behaves as that order's own register, deadlines included, whatever all
      other orders and all notifiers do to the map. */
  lemma {:induction false} RegisterRefinement(s: Store, cs: seq<Timed>, id: string)
    requires Paired(s, id) && Unshared(cs, id)
    ensures Paired(Play(s, cs), id)
    ensures RegisterOf(Play(s, cs), id) == Registered(RegisterOf(s, id), id, cs)
  {
    if cs != [] {
      var n := |cs| - 1;
      RegisterRefinement(s, cs[..n], id);
      EffectOnRegister(Play(s, cs[..n]), cs[n], id);
    }
  }

  lemma EffectOnRegister(s: Store, c: Timed, id: string)
    requires Paired(s, id)
    requires c.cmd.Write? ==> c.cmd.id == id || Apart(c.cmd.id, id)
    ensures Paired(Effect(s, c), id)
    ensures RegisterOf(Effect(s, c), id) == Registered(RegisterOf(s, id), id, [c])
  {
    assert [c][..0] == [];
    assert Registered(RegisterOf(s, id), id, []) == RegisterOf(s, id);
    match c.cmd
    case Write(other, event) =>
      KeysDisjointFrom(other, id);
      assert |LsnKey(id)| != |OrderKey(id)|;
    case Claim(other, status) =>
      EmailKeyElsewhere(other, status, id);
  }

  lemma KeysDisjointFrom(a: string, b: string)
    requires a == b || Apart(a, b)
    ensures a != b ==> OrderKey(a) != OrderKey(b) && LsnKey(a) != LsnKey(b)
                       && OrderKey(a) != LsnKey(b) && LsnKey(a) != OrderKey(b)
  {
    if a != b {
      KeysDisjoint(a, b);
      var x, y := {OrderKey(a), LsnKey(a)}, {OrderKey(b), LsnKey(b)};
      assert OrderKey(a) in x && LsnKey(a) in x && OrderKey(b) in y && LsnKey(b) in y;
    }
  }

  /** Likewise for notified pairs, for all ids, colons or not. */
  lemma {:induction false} MarkRefinement(s: Store, cs: seq<Timed>, id: string, status: string)
    requires Statuses(cs) && Announced(status)
    ensures MarkOf(Play(s, cs), EmailKey(id, status)) == MarkAfter(MarkOf(s, EmailKey(id, status)), id, status, cs)
  {
    if cs != [] {
      var n := |cs| - 1;
      MarkRefinement(s, cs[..n], id, status);
      match cs[n].cmd
      case Write(order, _) => EmailKeyElsewhere(id, status, order);
      case Claim(other, st) =>
        if EmailKey(other, st) == EmailKey(id, status) { EmailKeyInjective(other, st, id, status); }
    }
  }

  predicate Statuses(cs: seq<Timed>)
  {
    forall i :: 0 <= i < |cs| && cs[i].cmd.Claim? ==> Announced(cs[i].cmd.status)
  }

  // ---- the guard over traces --------------------------------------------------

  /** What commands see of the register. */
  lemma SlotOfRegister(s: Store, id: string, t: int)
    requires Paired(s, id)
    ensures SlotAt(s, id, t)
         == if RegisterOf(s, id).Held? && t < RegisterOf(s, id).deadline then Some(RegisterOf(s, id).slot) else None
    ensures Live(s, LsnKey(id), t) <==> SlotAt(s, id, t).Some?
  {
  }

  /** A register only ever holds an event that some client wrote, whole: its LSN
      and its document are never mixed from two events. */
  lemma {:induction false} Provenance(s: Store, cs: seq<Timed>, id: string, t: int)
    requires Paired(s, id) && Unshared(cs, id)
    ensures Paired(Play(s, cs), id)
    ensures SlotAt(Play(s, cs), id, t).Some? ==>
              SlotAt(Play(s, cs), id, t) == SlotAt(s, id, t) || Writes(cs, id, SlotAt(Play(s, cs), id, t).value)
  {
    RegisterRefinement(s, cs, id);
    RegisterProvenance(RegisterOf(s, id), id, cs);
    SlotOfRegister(s, id, t);
    SlotOfRegister(Play(s, cs), id, t);
  }

  lemma {:induction false} RegisterProvenance(reg: Register, id: string, cs: seq<Timed>)
    ensures var last := Registered(reg, id, cs); last == reg || (last.Held? && Writes(cs, id, last.slot))
  {
    if cs != [] {
      RegisterProvenance(reg, id, cs[..|cs| - 1]);
      WritesSnoc(cs, id);
    }
  }

  /** The order's register has not lapsed whenever a write of the order arrives. */
  predicate Unlapsed(reg: Register, id: string, cs: seq<Timed>)
  {
    forall n :: 0 <= n < |cs| && cs[n].cmd.Write? && cs[n].cmd.id == id ==>
      var before := Registered(reg, id, cs[..n]);
      before.Held? ==> cs[n].at < before.deadline
  }

  lemma UnlapsedBefore(reg: Register, id: string, cs: seq<Timed>)
    requires cs != [] && Unlapsed(reg, id, cs)
    ensures Unlapsed(reg, id, cs[..|cs| - 1])
  {
    forall n | 0 <= n < |cs| - 1
      ensures cs[..|cs| - 1][..n] == cs[..n] && cs[..|cs| - 1][n] == cs[n]
    {
    }
  }

  /** A trace that fits into one life of an entry is one in which nothing lapses.
      Longer traces will do if writes keep renewing the register. */
  lemma {:induction false} WindowLasts(reg: Register, id: string, cs: seq<Timed>, from: int, t: int)
    requires forall i :: 0 <= i < |cs| ==> from <= cs[i].at <= t
    requires t < from + TTL && (reg.Held? ==> t < reg.deadline)
    ensures Unlapsed(reg, id, cs)
    ensures Registered(reg, id, cs).Held? ==> t < Registered(reg, id, cs).deadline
  {
    if cs != [] {
      var m := |cs| - 1;
      WindowLasts(reg, id, cs[..m], from, t);
      forall n | 0 <= n < m
        ensures cs[..m][..n] == cs[..n] && cs[..m][n] == cs[n]
      {
      }
    }
  }

  lemma {:induction false} MonotoneRegister(reg: Register, id: string, cs: seq<Timed>)
    requires reg.Held? && Unlapsed(reg, id, cs)
    ensures var last := Registered(reg, id, cs);
            last.Held? && (last.slot == reg.slot || reg.slot.lsn < last.slot.lsn)
  {
    if cs != [] {
      var n := |cs| - 1;
      UnlapsedBefore(reg, id, cs);
      MonotoneRegister(reg, id, cs[..n]);
      var before, last := Registered(reg, id, cs[..n]), Registered(reg, id, cs);
      if last != before {
        StrictlyNewer(before.slot.lsn, last.slot.lsn);
      }
    }
  }

  /** The monotone guard, over traces of any length. As long as an order's register
      is alive whenever one of its writes arrives, and at the end, it is either
      what it was or has been replaced by events with ever greater LSNs, as
      integers and for all 64-bit LSNs, whatever any client does. */
  lemma {:induction false} MonotoneGuard(s: Store, cs: seq<Timed>, id: string, from: int, cur: Slot, t: int)
    requires Paired(s, id) && SlotAt(s, id, from) == Some(cur) && Unshared(cs, id)
    requires Unlapsed(RegisterOf(s, id), id, cs) && Live(Play(s, cs), LsnKey(id), t)
    ensures Paired(Play(s, cs), id)
    ensures SlotAt(Play(s, cs), id, t).Some?
    ensures SlotAt(Play(s, cs), id, t).value == cur || cur.lsn < SlotAt(Play(s, cs), id, t).value.lsn
  {
    SlotOfRegister(s, id, from);
    RegisterRefinement(s, cs, id);
    MonotoneRegister(RegisterOf(s, id), id, cs);
    SlotOfRegister(Play(s, cs), id, t);
  }

  lemma {:induction false} TombstoneStays(reg: Register, id: string, cs: seq<Timed>, lsn: int, t: int)
    requires reg.Held? && reg.slot == Slot(lsn, None) && t < reg.deadline
    requires forall i :: 0 <= i < |cs| ==> cs[i].at <= t
    requires forall event :: Writes(cs, id, event) ==> event.lsn <= lsn
    ensures Registered(reg, id, cs) == reg
  {
    if cs != [] {
      var n := |cs| - 1;
      WritesSnoc(cs, id);
      TombstoneStays(reg, id, cs[..n], lsn, t);
      if cs[n].cmd.Write? && cs[n].cmd.id == id {
        assert Writes(cs, id, cs[n].cmd.event);
        RoundMonotone(cs[n].cmd.event.lsn, lsn);
      }
    }
  }

  /** No resurrection: while a tombstone lives, events that are not newer than
      the delete cannot bring the document back. */
  lemma {:induction false} NoResurrection(s: Store, cs: seq<Timed>, id: string, lsn: int, t: int)
    requires Paired(s, id) && Unshared(cs, id)
    requires RegisterOf(s, id).Held? && RegisterOf(s, id).slot == Slot(lsn, None) && t < RegisterOf(s, id).deadline
    requires forall i :: 0 <= i < |cs| ==> cs[i].at <= t
    requires forall event :: Writes(cs, id, event) ==> event.lsn <= lsn
    ensures SlotAt(Play(s, cs), id, t) == Some(Slot(lsn, None)) && DocAt(Play(s, cs), id, t) == None
  {
    RegisterRefinement(s, cs, id);
    TombstoneStays(RegisterOf(s, id), id, cs, lsn, t);
    SlotOfRegister(Play(s, cs), id, t);
  }

  // ---- order and duplication do not matter --------------------------------

  /** The events a register can end up with. */
  predicate Candidate(reg: Register, cs: seq<Timed>, id: string, event: Slot)
  {
    (reg.Held? && reg.slot == event) || Writes(cs, id, event)
  }

  /** The reference: the event with the greatest LSN, as Lua compares them. */
  ghost predicate IsNewest(reg: Register, cs: seq<Timed>, id: string, event: Slot)
  {
    && Candidate(reg, cs, id, event)
    && forall other :: Candidate(reg, cs, id, other) ==> Round(other.lsn) <= Round(event.lsn)
  }

  lemma WritesSnoc(cs: seq<Timed>, id: string)
    requires cs != []
    ensures forall event {:trigger Writes(cs, id, event)} :: Writes(cs, id, event) <==>
              Writes(cs[..|cs| - 1], id, event) || cs[|cs| - 1].cmd == Write(id, event)
  {
    var n := |cs| - 1;
    forall event {:trigger Writes(cs, id, event)}
      ensures Writes(cs, id, event) <==> Writes(cs[..n], id, event) || cs[n].cmd == Write(id, event)
    {
      if Writes(cs[..n], id, event) {
        var i :| 0 <= i < n && cs[..n][i].cmd == Write(id, event);
        assert cs[i].cmd == Write(id, event);
      }
      if Writes(cs, id, event) && cs[n].cmd != Write(id, event) {
        var i :| 0 <= i < |cs| && cs[i].cmd == Write(id, event);
        assert cs[..n][i].cmd == Write(id, event);
      }
    }
  }

  lemma {:induction false} NewestRegister(reg: Register, id: string, cs: seq<Timed>)
    requires Unlapsed(reg, id, cs)
    ensures var last := Registered(reg, id, cs);
            && (last.Held? ==> IsNewest(reg, cs, id, last.slot))
            && (last.Blank? ==> forall event :: !Candidate(reg, cs, id, event))
  {
    if cs != [] {
      var n := |cs| - 1;
      var before, last := Registered(reg, id, cs[..n]), Registered(reg, id, cs);
      UnlapsedBefore(reg, id, cs);
      NewestRegister(reg, id, cs[..n]);
      WritesSnoc(cs, id);
      forall event
        ensures Candidate(reg, cs, id, event) <==>
                  Candidate(reg, cs[..n], id, event) || cs[n].cmd == Write(id, event)
      {
      }
      if last == before {
        assert last.Blank? ==> !(cs[n].cmd.Write? && cs[n].cmd.id == id);
      } else {
        assert Candidate(reg, cs, id, last.slot);
        assert before.Held? ==> Round(before.slot.lsn) < Round(last.slot.lsn);
      }
    }
  }

  /** Max wins, over traces of any length from any keyspace: a register that never
      lapsed before a write holds the newest of what it held and what was
      written, and is empty only if there was nothing. */
  lemma {:induction false} NewestWins(s: Store, cs: seq<Timed>, id: string, t: int)
    requires Paired(s, id) && Unshared(cs, id) && Unlapsed(RegisterOf(s, id), id, cs)
    requires LsnKey(id) in Play(s, cs) ==> Live(Play(s, cs), LsnKey(id), t)
    ensures SlotAt(Play(s, cs), id, t).None? ==> !exists event :: Candidate(RegisterOf(s, id), cs, id, event)
    ensures SlotAt(Play(s, cs), id, t).Some? ==>
              IsNewest(RegisterOf(s, id), cs, id, SlotAt(Play(s, cs), id, t).value)
  {
    RegisterRefinement(s, cs, id);
    NewestRegister(RegisterOf(s, id), id, cs);
    SlotOfRegister(Play(s, cs), id, t);
  }

  /** Order and duplication insensitivity: two traces in which the same events of
      an order were written, however often and in whatever order, leave the same
      register, provided events that tie to Lua are the same event. */
  lemma {:induction false} OrderInsensitive(s: Store, cs: seq<Timed>, ds: seq<Timed>, id: string, t: int, u: int)
    requires Paired(s, id) && Unshared(cs, id) && Unshared(ds, id)
    requires Unlapsed(RegisterOf(s, id), id, cs) && Unlapsed(RegisterOf(s, id), id, ds)
    requires LsnKey(id) in Play(s, cs) ==> Live(Play(s, cs), LsnKey(id), t)
    requires LsnKey(id) in Play(s, ds) ==> Live(Play(s, ds), LsnKey(id), u)
    requires forall event :: Writes(cs, id, event) <==> Writes(ds, id, event)
    requires forall e, f :: Candidate(RegisterOf(s, id), cs, id, e) && Candidate(RegisterOf(s, id), cs, id, f) ==>
               (Round(e.lsn) == Round(f.lsn) ==> e == f)
    ensures SlotAt(Play(s, cs), id, t) == SlotAt(Play(s, ds), id, u)
  {
    NewestWins(s, cs, id, t);
    NewestWins(s, ds, id, u);
    forall event
      ensures Candidate(RegisterOf(s, id), cs, id, event) <==> Candidate(RegisterOf(s, id), ds, id, event)
    {
    }
  }

  // ---- notifications ----------------------------------------------------

  /** The i-th command is a claim that Redis answered OK: the only moment at
      which a notifier dispatches an email. */
  predicate Won(s: Store, cs: seq<Timed>, i: int, id: string, status: string)
  {
    && 0 <= i < |cs|
    && cs[i].cmd == Claim(id, status)
    && !Live(Play(s, cs[..i]), EmailKey(id, status), cs[i].at)
  }

  /** A mark that is alive when a command arrives outlasts it. */
  lemma MarkOutlasts(s: Store, c: Timed, id: string, status: string)
    requires Announced(status) && (c.cmd.Claim? ==> Announced(c.cmd.status))
    requires Live(s, EmailKey(id, status), c.at)
    ensures EmailKey(id, status) in Effect(s, c)
    ensures Effect(s, c)[EmailKey(id, status)] == s[EmailKey(id, status)]
  {
    match c.cmd
    case Write(order, _) => EmailKeyElsewhere(id, status, order);
    case Claim(other, st) =>
      if EmailKey(other, st) == EmailKey(id, status) { EmailKeyInjective(other, st, id, status); }
  }

  lemma ClaimSets(s: Store, c: Timed, id: string, status: string)
    requires c.cmd == Claim(id, status) && !Live(s, EmailKey(id, status), c.at)
    ensures EmailKey(id, status) in Effect(s, c) && Effect(s, c)[EmailKey(id, status)].expiresAt == c.at + TTL
  {
  }

  lemma WonBefore(s: Store, cs: seq<Timed>, n: nat, i: int, id: string, status: string)
    requires i < n <= |cs| && Won(s, cs, i, id, status)
    ensures Won(s, cs[..n], i, id, status)
  {
    assert cs[..n][..i] == cs[..i];
  }

  /** A won claim holds until its time is over, whatever commands come in between. */
  lemma {:induction false} ClaimHeld(s: Store, cs: seq<Timed>, i: int, id: string, status: string)
    requires Statuses(cs) && Announced(status) && Won(s, cs, i, id, status)
    requires forall k :: i < k < |cs| ==> cs[k].at < cs[i].at + TTL
    ensures EmailKey(id, status) in Play(s, cs)
    ensures Play(s, cs)[EmailKey(id, status)].expiresAt == cs[i].at + TTL
  {
    var n := |cs| - 1;
    if n == i {
      ClaimSets(Play(s, cs[..n]), cs[n], id, status);
    } else {
      WonBefore(s, cs, n, i, id, status);
      ClaimHeld(s, cs[..n], i, id, status);
      MarkOutlasts(Play(s, cs[..n]), cs[n], id, status);
    }
  }

  /** Two emails for the same order and status are at least 86400 s apart, over
      every interleaving of every notifier instance, replay and crash, starting
      from any keyspace. */
  lemma EmailSpacing(s: Store, cs: seq<Timed>, i: int, j: int, id: string, status: string)
    requires Ordered(cs) && Statuses(cs) && Announced(status)
    requires i < j && Won(s, cs, i, id, status) && Won(s, cs, j, id, status)
    ensures cs[i].at + TTL <= cs[j].at
  {
    if cs[j].at < cs[i].at + TTL {
      WonBefore(s, cs, j, i, id, status);
      ClaimHeld(s, cs[..j], i, id, status);
    }
  }
}
