/** The reactive values: `ValueNotifier`, `DerivedValueNotifier` and
    `LazyDerivedValueNotifier`.

    A listener closure is represented by an identifier. Notifying produces the
    trace of listener calls, in order, instead of running closures: the
    recipient of a call performs it by calling the matching method (for the
    closures a derived notifier registers, `OnUpstream`). An upstream list is
    one sequence of notifiers over one state type `U`, which stands for the
    source's `ValueNotifier<any>`; `calc` receives the upstream states. */
module Notifiers {
  import opened Wrappers

  /** `Ext(n)`: a listener registered by outside code.
      `Derived(owner, slot)`: the closure the derived notifier `owner` registers
      on its `slot`-th upstream (each loop iteration makes a fresh closure). */
  datatype ListenerId = Ext(n: nat) | Derived(owner: nat, slot: nat)

  datatype Call<T> = Call(listener: ListenerId, arg: T)

  predicate NoDup<X(==)>(s: seq<X>) {
    forall i, j :: 0 <= i < j < |s| ==> s[i] != s[j]
  }

  // ----- the listener Set (insertion-ordered) ------------------------------

  /** `set.add(l)`: appends unless already present. */
  function SetAdd(s: seq<ListenerId>, l: ListenerId): (r: seq<ListenerId>)
  {
    if l in s then s else s + [l]
  }

  /** `set.delete(l)`: removes `l`, keeping the order of the others. */
  function SetDelete(s: seq<ListenerId>, l: ListenerId): (r: seq<ListenerId>)
  {
    if s == [] then []
    else if s[0] == l then SetDelete(s[1..], l)
    else [s[0]] + SetDelete(s[1..], l)
  }

  lemma SetAddContents(s: seq<ListenerId>, l: ListenerId)
    requires NoDup(s)
    ensures var r := SetAdd(s, l);
      NoDup(r) && l in r && (forall x :: x in r <==> x in s || x == l)
      && (l in s ==> r == s) && (l !in s ==> r[..|s|] == s && |r| == |s| + 1)
  {
  }

  /** Registering twice leaves a single registration. */
  lemma SetAddIdempotent(s: seq<ListenerId>, l: ListenerId)
    ensures SetAdd(SetAdd(s, l), l) == SetAdd(s, l)
  {
  }

  /** Deleting removes exactly `l`: every other member stays, in order. */
  lemma {:induction false} SetDeleteContents(s: seq<ListenerId>, l: ListenerId)
    ensures var r := SetDelete(s, l);
      l !in r && (forall x :: x in r <==> x in s && x != l) && |r| <= |s|
      && (NoDup(s) ==> NoDup(r)) && (l !in s ==> r == s)
  {
    if s != [] {
      SetDeleteContents(s[1..], l);
      if NoDup(s) {
        assert NoDup(s[1..]);
        assert s[0] !in s[1..];
      }
      if l !in s {
        assert s == [s[0]] + s[1..];
      }
    }
  }

  /** Calling an unsubscribe function again is harmless. */
  lemma SetDeleteIdempotent(s: seq<ListenerId>, l: ListenerId)
    ensures SetDelete(SetDelete(s, l), l) == SetDelete(s, l)
  {
    SetDeleteContents(s, l);
    SetDeleteContents(SetDelete(s, l), l);
  }

  /** Listening then unsubscribing a new listener restores the set. */
  lemma {:induction false} AddThenDelete(s: seq<ListenerId>, l: ListenerId)
    requires l !in s
    ensures SetDelete(SetAdd(s, l), l) == s
  {
    if s != [] {
      assert (s + [l])[1..] == s[1..] + [l];
      AddThenDelete(s[1..], l);
    }
  }

  // ----- notification -----------------------------------------------------

  /** The calls `notify` makes: every listener, in insertion order, with `v`. */
  function Broadcast<T>(ls: seq<ListenerId>, v: T): (trace: seq<Call<T>>)
  {
    if ls == [] then [] else [Call(ls[0], v)] + Broadcast(ls[1..], v)
  }

  /** `notify` calls every registered listener once, in insertion order,
      with the current state. */
  lemma {:induction false} BroadcastCallsEachOnce<T>(ls: seq<ListenerId>, v: T)
    ensures var t := Broadcast(ls, v);
      |t| == |ls| && forall i :: 0 <= i < |t| ==> t[i].listener == ls[i] && t[i].arg == v
  {
    if ls != [] {
      BroadcastCallsEachOnce(ls[1..], v);
    }
  }

  /** The slots of `owner`'s listeners among the calls of `t`. */
  function SlotsCalled<T>(t: seq<Call<T>>, owner: nat): seq<nat>
  {
    if t == [] then []
    else if t[0].listener.Derived? && t[0].listener.owner == owner
    then [t[0].listener.slot] + SlotsCalled(t[1..], owner)
    else SlotsCalled(t[1..], owner)
  }

  /** The registrations notifier `u` receives from derived notifier `owner`
      over the upstream list `ups`: one per position of `u` in the list. */
  function RegistrationsOn<U>(ups: seq<ValueNotifier<U>>, u: ValueNotifier<U>, owner: nat)
    : (r: seq<ListenerId>)
    ensures forall l :: l in r ==>
      l.Derived? && l.owner == owner && l.slot < |ups| && ups[l.slot] == u
    ensures forall k :: 0 <= k < |ups| && ups[k] == u ==> Derived(owner, k) in r
    ensures NoDup(r)
  {
    if ups == [] then []
    else
      var p := RegistrationsOn(ups[..|ups| - 1], u, owner);
      if ups[|ups| - 1] == u then p + [Derived(owner, |ups| - 1)] else p
  }

  lemma {:induction false} SlotsOfRegistrations<T>(ls: seq<ListenerId>, regs: seq<ListenerId>, owner: nat, v: T)
    requires forall l :: l in ls ==> !(l.Derived? && l.owner == owner)
    requires forall l :: l in regs ==> l.Derived? && l.owner == owner
    ensures SlotsCalled(Broadcast(ls + regs, v), owner) == SlotsOf(regs)
    decreases |ls| + |regs|
  {
    if ls != [] {
      assert (ls + regs)[1..] == ls[1..] + regs;
      SlotsOfRegistrations(ls[1..], regs, owner, v);
    } else if regs != [] {
      assert ls + regs == regs;
      assert [] + regs[1..] == regs[1..];
      SlotsOfRegistrations([], regs[1..], owner, v);
    }
  }

  function SlotsOf(regs: seq<ListenerId>): seq<nat>
    requires forall l :: l in regs ==> l.Derived?
  {
    if regs == [] then [] else [regs[0].slot] + SlotsOf(regs[1..])
  }

  // ----- ValueNotifier ------------------------------------------------------

  class ValueNotifier<T> {
    var state: T
    var listeners: seq<ListenerId>

    ghost predicate Valid()
      reads this
    {
      NoDup(listeners)
    }

    constructor(initialState: T)
      ensures state == initialState && listeners == [] && Valid()
    {
      state := initialState;
      listeners := [];
    }

    /** `listen(l, initialCall)`: registers `l` and, when asked, calls it once
        with the current state. The state does not change. */
    method Listen(l: ListenerId, initialCall: bool) returns (trace: seq<Call<T>>)
      requires Valid()
      modifies this
      ensures Valid()
      ensures listeners == SetAdd(old(listeners), l) && state == old(state)
      ensures trace == if initialCall then [Call(l, state)] else []
    {
      SetAddContents(listeners, l);
      listeners := SetAdd(listeners, l);
      trace := if initialCall then [Call(l, state)] else [];
    }

    /** The function `listen` returns: removes `l` only; the state does not change. */
    method Unsubscribe(l: ListenerId)
      requires Valid()
      modifies this
      ensures Valid()
      ensures listeners == SetDelete(old(listeners), l) && state == old(state)
    {
      SetDeleteContents(listeners, l);
      listeners := SetDelete(listeners, l);
    }

    /** The `state` setter: stores the value and notifies, even when the value
        is unchanged. */
    method SetState(v: T) returns (trace: seq<Call<T>>)
      requires Valid()
      modifies this
      ensures Valid()
      ensures state == v && listeners == old(listeners)
      ensures trace == Broadcast(listeners, v)
    {
      state := v;
      trace := Notify();
    }

    method Notify() returns (trace: seq<Call<T>>)
      ensures trace == Broadcast(listeners, state)
    {
      trace := [];
      var i := |listeners|;
      while i > 0
        invariant 0 <= i <= |listeners|
        invariant trace == Broadcast(listeners[i..], state)
      {
        i := i - 1;
        assert listeners[i..][1..] == listeners[i + 1..];
        trace := [Call(listeners[i], state)] + trace;
      }
    }
  }

  /** `owner` has no registration yet on any of `ups`. */
  ghost predicate UnusedOwner<U>(ups: seq<ValueNotifier<U>>, owner: nat)
    reads ups
  {
    forall k, l :: 0 <= k < |ups| && l in ups[k].listeners ==> !(l.Derived? && l.owner == owner)
  }

  ghost predicate AllValid<U>(ups: seq<ValueNotifier<U>>)
    reads ups
  {
    forall k :: 0 <= k < |ups| ==> ups[k].Valid()
  }

  function States<U>(ups: seq<ValueNotifier<U>>): (r: seq<U>)
    reads ups
    ensures |r| == |ups| && forall k :: 0 <= k < |ups| ==> r[k] == ups[k].state
  {
    if ups == [] then [] else States(ups[..|ups| - 1]) + [ups[|ups| - 1].state]
  }

  /** The registration loop of both derived notifiers: one fresh closure per
      upstream position. */
  method RegisterAll<U>(ups: seq<ValueNotifier<U>>, owner: nat)
    requires AllValid(ups) && UnusedOwner(ups, owner)
    modifies ups
    ensures AllValid(ups)
    ensures forall k :: 0 <= k < |ups| ==>
      ups[k].listeners == old(ups[k].listeners) + RegistrationsOn(ups, ups[k], owner)
      && ups[k].state == old(ups[k].state)
  {
    for i := 0 to |ups|
      invariant AllValid(ups)
      invariant forall k :: 0 <= k < |ups| ==>
        ups[k].listeners == old(ups[k].listeners) + RegistrationsOn(ups[..i], ups[k], owner)
        && ups[k].state == old(ups[k].state)
    {
      var u := ups[i];
      assert ups[..i + 1][..i] == ups[..i];
      assert Derived(owner, i) !in u.listeners by {
        assert u.listeners == old(u.listeners) + RegistrationsOn(ups[..i], u, owner);
        assert forall k, l :: 0 <= k < |ups| && l in old(ups[k].listeners) ==>
          !(l.Derived? && l.owner == owner);
      }
      var _ := u.Listen(Derived(owner, i), false);
    }
    assert ups[..|ups|] == ups;
  }

  /** The unsubscribe loop of both `dispose` methods. */
  method UnregisterAll<U>(ups: seq<ValueNotifier<U>>, owner: nat)
    requires AllValid(ups)
    modifies ups
    ensures AllValid(ups)
    ensures forall k :: 0 <= k < |ups| ==>
      (forall l :: l in ups[k].listeners <==>
         l in old(ups[k].listeners) && l !in RegistrationsOn(ups, ups[k], owner))
      && ups[k].state == old(ups[k].state)
  {
    for i := 0 to |ups|
      invariant AllValid(ups)
      invariant forall k :: 0 <= k < |ups| ==>
        (forall l :: l in ups[k].listeners <==>
           l in old(ups[k].listeners) && l !in RegistrationsOn(ups[..i], ups[k], owner))
        && ups[k].state == old(ups[k].state)
    {
      var u := ups[i];
      assert ups[..i + 1][..i] == ups[..i];
      SetDeleteContents(u.listeners, Derived(owner, i));
      u.Unsubscribe(Derived(owner, i));
    }
    assert ups[..|ups|] == ups;
  }

  // ----- DerivedValueNotifier -----------------------------------------------

  /** Recomputes its state eagerly on every upstream notification. `base` is
      the inherited `ValueNotifier` part (state and listeners). */
  class DerivedValueNotifier<U, T> {
    const base: ValueNotifier<T>
    const ups: seq<ValueNotifier<U>>
    const compute: (seq<U>, Option<T>) -> T
    const id: nat

    ghost predicate Valid()
      reads this, base
    {
      base.Valid() && base !in ups
    }

    /** Computes the initial state `compute(notifiers, null)` and registers one
        listener on every upstream position. */
    constructor(ups: seq<ValueNotifier<U>>, compute: (seq<U>, Option<T>) -> T, id: nat)
      requires AllValid(ups) && UnusedOwner(ups, id)
      modifies ups
      ensures Valid() && fresh(base)
      ensures this.ups == ups && this.compute == compute && this.id == id
      ensures base.state == compute(old(States(ups)), None) && base.listeners == []
      ensures AllValid(ups)
      ensures forall k :: 0 <= k < |ups| ==>
        ups[k].listeners == old(ups[k].listeners) + RegistrationsOn(ups, ups[k], id)
        && ups[k].state == old(ups[k].state)
    {
      var b := new ValueNotifier(compute(States(ups), None));
      base := b;
      this.ups := ups;
      this.compute := compute;
      this.id := id;
      new;
      RegisterAll(ups, id);
    }

    /** The registered closure: `state := compute(notifiers, state)`, then notify. */
    method OnUpstream() returns (trace: seq<Call<T>>)
      requires Valid()
      modifies base
      ensures Valid()
      ensures base.state == compute(States(ups), Some(old(base.state)))
      ensures base.listeners == old(base.listeners)
      ensures trace == Broadcast(base.listeners, base.state)
    {
      var v := compute(States(ups), Some(base.state));
      trace := base.SetState(v);
    }

    /** Unsubscribes every registered closure; repeating it is harmless. */
    method Dispose()
      requires Valid() && AllValid(ups)
      modifies ups
      ensures Valid() && AllValid(ups)
      ensures forall k :: 0 <= k < |ups| ==>
        (forall l :: l in ups[k].listeners <==>
           l in old(ups[k].listeners) && l !in RegistrationsOn(ups, ups[k], id))
        && ups[k].state == old(ups[k].state)
    {
      UnregisterAll(ups, id);
    }
  }

  /** Right after registration, a notification of upstream `u` calls the
      derived notifier's closures once per position of `u` in its upstream
      list: one recomputation per listening registration. */
  lemma OneRecomputationPerRegistration<U, V>(
    before: seq<ListenerId>, ups: seq<ValueNotifier<U>>, u: ValueNotifier<U>, owner: nat, v: V)
    requires forall l :: l in before ==> !(l.Derived? && l.owner == owner)
    ensures var slots := SlotsCalled(Broadcast(before + RegistrationsOn(ups, u, owner), v), owner);
      NoDup(slots) && forall k :: 0 <= k < |ups| ==> (k in slots <==> ups[k] == u)
  {
    var regs := RegistrationsOn(ups, u, owner);
    SlotsOfRegistrations(before, regs, owner, v);
    SlotsOfDistinct(regs, owner);
  }

  lemma {:induction false} SlotsOfDistinct(regs: seq<ListenerId>, owner: nat)
    requires forall l :: l in regs ==> l.Derived? && l.owner == owner
    requires NoDup(regs)
    ensures NoDup(SlotsOf(regs))
    ensures forall k :: k in SlotsOf(regs) <==> Derived(owner, k) in regs
  {
    if regs != [] {
      assert forall l :: l in regs[1..] ==> l in regs;
      assert NoDup(regs[1..]);
      SlotsOfDistinct(regs[1..], owner);
      assert regs[0] !in regs[1..];
      assert regs[0] == Derived(owner, regs[0].slot);
      assert regs[0].slot !in SlotsOf(regs[1..]);
      assert SlotsOf(regs) == [regs[0].slot] + SlotsOf(regs[1..]);
    }
  }

  /** Once disposed, an upstream notification reaches none of the derived
      notifier's closures. */
  lemma DisposedGetsNoCalls<U, V>(ls: seq<ListenerId>, old_ls: seq<ListenerId>,
                                  ups: seq<ValueNotifier<U>>, u: ValueNotifier<U>, owner: nat, v: V)
    requires forall l :: l in old_ls ==> !(l.Derived? && l.owner == owner) || l in RegistrationsOn(ups, u, owner)
    requires forall l :: l in ls <==> l in old_ls && l !in RegistrationsOn(ups, u, owner)
    ensures SlotsCalled(Broadcast(ls, v), owner) == []
  {
    NoOwnerNoSlots(ls, owner, v);
  }

  lemma {:induction false} NoOwnerNoSlots<V>(ls: seq<ListenerId>, owner: nat, v: V)
    requires forall l :: l in ls ==> !(l.Derived? && l.owner == owner)
    ensures SlotsCalled(Broadcast(ls, v), owner) == []
  {
    if ls != [] {
      assert forall l :: l in ls[1..] ==> l in ls;
      NoOwnerNoSlots(ls[1..], owner, v);
    }
  }

  // ----- LazyDerivedValueNotifier -------------------------------------------

  /** Marks itself dirty on upstream notifications and recomputes on the next
      read. `calc` may throw (`Err`). The base part's state is `null` and
      stays so: it is what listeners receive. `truthy` is JavaScript's
      truthiness of a computed state: an absent cache and a falsy cached
      state (a `null` that `calc` returned, say) are both computed again on
      the next read. */
  class LazyDerivedValueNotifier<U, T> {
    const base: ValueNotifier<Option<T>>
    const ups: seq<ValueNotifier<U>>
    const compute: (seq<U>, Option<T>) -> Result<T>
    const truthy: T -> bool
    const id: nat
    var cache: Option<T>
    var dirty: bool
    ghost var calcCount: nat

    ghost predicate Valid()
      reads this, base
    {
      base.Valid() && base !in ups && base.state == None
    }

    /** Calls no `calc`: the cache is null and nothing is dirty. */
    constructor(ups: seq<ValueNotifier<U>>, compute: (seq<U>, Option<T>) -> Result<T>, truthy: T -> bool, id: nat)
      requires AllValid(ups) && UnusedOwner(ups, id)
      modifies ups
      ensures Valid() && fresh(base)
      ensures this.ups == ups && this.compute == compute && this.truthy == truthy && this.id == id
      ensures cache == None && !dirty && calcCount == 0 && base.listeners == []
      ensures AllValid(ups)
      ensures forall k :: 0 <= k < |ups| ==>
        ups[k].listeners == old(ups[k].listeners) + RegistrationsOn(ups, ups[k], id)
        && ups[k].state == old(ups[k].state)
    {
      var b := new ValueNotifier(None);
      base := b;
      this.ups := ups;
      this.compute := compute;
      this.truthy := truthy;
      this.id := id;
      cache := None;
      dirty := false;
      calcCount := 0;
      new;
      RegisterAll(ups, id);
    }

    /** The registered closure: marks dirty and notifies, without computing. */
    method OnUpstream() returns (trace: seq<Call<Option<T>>>)
      requires Valid()
      modifies this
      ensures Valid()
      ensures dirty && cache == old(cache) && calcCount == old(calcCount)
      ensures trace == Broadcast(base.listeners, None)
    {
      dirty := true;
      trace := base.Notify();
    }

    /** `update`: `cache := compute(notifiers, cache)` and clear dirty; when `calc`
        throws, neither changes. */
    method Update() returns (r: Result<T>)
      requires Valid()
      modifies this
      ensures Valid()
      ensures r == compute(States(ups), old(cache))
      ensures r.Ok? ==> cache == Some(r.value) && !dirty
      ensures r.Err? ==> cache == old(cache) && dirty == old(dirty)
      ensures calcCount == old(calcCount) + 1
    {
      r := compute(States(ups), cache);
      calcCount := calcCount + 1;
      if r.Ok? {
        cache := Some(r.value);
        dirty := false;
      }
    }

    /** The `state` getter. */
    method Read() returns (r: Result<T>)
      requires Valid()
      modifies this
      ensures Valid()
      ensures old(cache).Some? && truthy(old(cache).value) && !old(dirty) ==>
        r == Ok(old(cache).value) && cache == old(cache) && dirty == old(dirty)
        && calcCount == old(calcCount)
      ensures old(cache).None? || !truthy(old(cache).value) || old(dirty) ==>
        r == compute(States(ups), old(cache)) && calcCount == old(calcCount) + 1
        && (r.Ok? ==> cache == Some(r.value) && !dirty)
        && (r.Err? ==> cache == old(cache) && dirty == old(dirty))
    {
      if cache.None? || !truthy(cache.value) || dirty {
        r := Update();
      } else {
        r := Ok(cache.value);
      }
    }

    /** The `state` setter: stores the value, clears dirty and notifies
        (listeners receive the base state, `null`). */
    method SetState(v: T) returns (trace: seq<Call<Option<T>>>)
      requires Valid()
      modifies this
      ensures Valid()
      ensures cache == Some(v) && !dirty && calcCount == old(calcCount)
      ensures trace == Broadcast(base.listeners, None)
    {
      cache := Some(v);
      dirty := false;
      trace := base.Notify();
    }

    method Dispose()
      requires Valid() && AllValid(ups)
      modifies ups
      ensures Valid() && AllValid(ups)
      ensures forall k :: 0 <= k < |ups| ==>
        (forall l :: l in ups[k].listeners <==>
           l in old(ups[k].listeners) && l !in RegistrationsOn(ups, ups[k], id))
        && ups[k].state == old(ups[k].state)
    {
      UnregisterAll(ups, id);
    }
  }

  /** A burst of upstream notifications followed by a read computes at most once. */
  method BurstThenRead<U, T>(n: LazyDerivedValueNotifier<U, T>, burst: nat) returns (r: Result<T>)
    requires n.Valid()
    modifies n
    ensures n.Valid()
    ensures n.calcCount <= old(n.calcCount) + 1
    ensures burst > 0 ==> r == n.compute(States(n.ups), old(n.cache))
  {
    var i := 0;
    while i < burst
      invariant n.Valid() && n.calcCount == old(n.calcCount) && n.cache == old(n.cache)
      invariant i <= burst && (i > 0 ==> n.dirty)
    {
      var _ := n.OnUpstream();
      i := i + 1;
    }
    r := n.Read();
  }

  /** Two reads with no notification between them: a read that yields a
      truthy state leaves the next read nothing to compute, while one that
      yields a falsy state was computed and is computed again. */
  method ReadTwice<U, T>(n: LazyDerivedValueNotifier<U, T>) returns (r1: Result<T>, r2: Result<T>)
    requires n.Valid()
    modifies n
    ensures n.Valid()
    ensures n.calcCount <= old(n.calcCount) + 2
    ensures r1.Ok? && n.truthy(r1.value) ==> r2 == r1 && n.calcCount <= old(n.calcCount) + 1
    ensures r1.Ok? && !n.truthy(r1.value) ==>
      n.calcCount == old(n.calcCount) + 2 && r2 == n.compute(States(n.ups), Some(r1.value))
  {
    r1 := n.Read();
    r2 := n.Read();
  }
}
