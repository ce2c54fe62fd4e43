/** What the driver model computes: resource claims, binding of devices to drivers, and teardown. */
module DriverSpec {
  import opened Basics
  import Seqs

  const MAX_DEVICES := 32
  const MAX_DRIVERS := 32
  const MAX_RESOURCES := 64
  const ADDRESSES := 0x1_0000_0000_0000_0000    // uintptr_t

  datatype Kind = IoPort | Mmio | Irq | Dma | Synth

  datatype Resource = Resource(kind: Kind, start: nat, size: nat)

  type Owner = nat

  datatype Claim = Claim(resource: Resource, owner: Owner)

  datatype Bus = PciBus | DtBus | SynthBus | OtherBus

  datatype Desc = Desc(bus: Bus, synthId: string, dtCompatible: string, classCode: nat, subclass: nat,
                       resources: seq<Resource>)

  datatype Driver = Driver(synthId: Option<string>, dtCompatible: Option<string>, pciClass: nat, pciSubclass: nat,
                           hasStop: bool, hasDetach: bool)

  datatype Phase = Probed | Attached | Started

  /** `dev` is the device's address; its descriptor is a copy of the enumerated one. */
  datatype Bound = Bound(dev: Owner, desc: Desc, driver: Driver, phase: Phase)

  /** Calls into drivers and the allocator during teardown. */
  datatype Event = Stop(dev: Owner) | Detach(dev: Owner) | Destroy(dev: Owner)

  // ----- overlap

  predicate Wraps(a: Resource) { a.kind != Irq && a.start + a.size > ADDRESSES }

  function Last(a: Resource): nat
    requires a.size > 0
  {
    (a.start + a.size - 1) % ADDRESSES
  }

  /** resource_overlaps */
  predicate Overlaps(a: Resource, b: Resource) {
    if a.kind != b.kind then false
    else if a.kind == Irq then a.start == b.start
    else if a.size == 0 || b.size == 0 then false
    else a.start <= Last(b) && b.start <= Last(a)
  }

  /** The interrupt line, or the addresses of the range. */
  predicate Covers(a: Resource, x: nat) {
    if a.kind == Irq then x == a.start else a.start <= x < a.start + a.size
  }

  ghost predicate Meet(a: Resource, b: Resource) {
    a.kind == b.kind && exists x :: Covers(a, x) && Covers(b, x)
  }

  /** For ranges that do not wrap, the test is exactly that they have something in common. */
  lemma OverlapsIffMeet(a: Resource, b: Resource)
    requires !Wraps(a) && !Wraps(b)
    ensures Overlaps(a, b) <==> Meet(a, b)
  {
    if a.kind == b.kind && Overlaps(a, b) {
      var x := if a.start <= b.start then b.start else a.start;
      assert Covers(a, x) && Covers(b, x);
    }
  }

  /** A range that wraps is missed: some range inside it is not reported. */
  lemma WrappedRangeIsMissed(a: Resource)
    requires Wraps(a) && a.start < ADDRESSES && 0 < a.size < ADDRESSES
    ensures var b := Resource(a.kind, a.start, 1);
            !Wraps(b) && Meet(a, b) && !Overlaps(a, b)
  {
    var b := Resource(a.kind, a.start, 1);
    assert Covers(a, a.start) && Covers(b, a.start);
    assert Last(a) == a.start + a.size - 1 - ADDRESSES;
  }

  /** The test is right against every range that does not wrap if and only if the range itself does not. */
  lemma OverlapsExactIff(a: Resource)
    requires a.start < ADDRESSES && a.size < ADDRESSES
    ensures (forall b :: !Wraps(b) ==> (Overlaps(a, b) <==> Meet(a, b))) <==> !Wraps(a)
  {
    if Wraps(a) {
      WrappedRangeIsMissed(a);
    } else {
      forall b | !Wraps(b) ensures Overlaps(a, b) <==> Meet(a, b) { OverlapsIffMeet(a, b); }
    }
  }

  // ----- the claim table

  predicate Blocked(c: seq<Claim>, r: Resource) {
    exists i :: 0 <= i < |c| && Overlaps(c[i].resource, r)
  }

  function Tagged(dev: Owner, rs: seq<Resource>): (r: seq<Claim>)
    ensures |r| == |rs|
  {
    seq(|rs|, i requires 0 <= i < |rs| => Claim(rs[i], dev))
  }

  predicate CanClaim(c: seq<Claim>, r: Resource) { |c| < MAX_RESOURCES && !Blocked(c, r) }

  /** How many of `rs` claim_device_resources gets before the first refusal. */
  function Taken(c: seq<Claim>, dev: Owner, rs: seq<Resource>): (k: nat)
    ensures k <= |rs|
    decreases |rs|
  {
    if rs == [] || !CanClaim(c, rs[0]) then 0 else 1 + Taken(c + [Claim(rs[0], dev)], dev, rs[1..])
  }

  /** The resources can be added to the table: there is room, and nothing overlaps. */
  ghost predicate Fits(c: seq<Claim>, rs: seq<Resource>) {
    && |c| + |rs| <= MAX_RESOURCES
    && (forall i :: 0 <= i < |rs| ==> !Blocked(c, rs[i]))
    && (forall i, j :: 0 <= i < j < |rs| ==> !Overlaps(rs[i], rs[j]))
  }

  /** Claiming one by one succeeds exactly when all of it fits. */
  lemma {:induction false} TakenIffFits(c: seq<Claim>, dev: Owner, rs: seq<Resource>)
    requires |c| <= MAX_RESOURCES
    ensures Taken(c, dev, rs) == |rs| <==> Fits(c, rs)
    decreases |rs|
  {
    if rs != [] && CanClaim(c, rs[0]) {
      var c', rest := c + [Claim(rs[0], dev)], rs[1..];
      TakenIffFits(c', dev, rest);
      FitsStep(c, dev, rs);
    } else if rs != [] {
      assert Blocked(c, rs[0]) || |c| >= MAX_RESOURCES;
    }
  }

  lemma FitsStep(c: seq<Claim>, dev: Owner, rs: seq<Resource>)
    requires rs != [] && CanClaim(c, rs[0])
    ensures Fits(c, rs) <==> Fits(c + [Claim(rs[0], dev)], rs[1..])
  {
    var c', rest := c + [Claim(rs[0], dev)], rs[1..];
    forall i | 0 <= i < |rest|
      ensures Blocked(c', rest[i]) <==> Blocked(c, rs[i + 1]) || Overlaps(rs[0], rs[i + 1])
    {
      BlockedAppend(c, Claim(rs[0], dev), rest[i]);
    }
    if Fits(c, rs) {
      forall i, j | 0 <= i < j < |rest| ensures !Overlaps(rest[i], rest[j]) {
        assert rest[i] == rs[i + 1] && rest[j] == rs[j + 1];
      }
    }
    if Fits(c', rest) {
      forall i | 0 <= i < |rs| ensures !Blocked(c, rs[i]) {
        if i > 0 { assert rs[i] == rest[i - 1]; }
      }
      forall i, j | 0 <= i < j < |rs| ensures !Overlaps(rs[i], rs[j]) {
        assert rs[j] == rest[j - 1];
        if i > 0 { assert rs[i] == rest[i - 1]; }
      }
    }
  }

  lemma BlockedAppend(c: seq<Claim>, x: Claim, r: Resource)
    ensures Blocked(c + [x], r) <==> Blocked(c, r) || Overlaps(x.resource, r)
  {
    var d := c + [x];
    if Blocked(c, r) {
      var i :| 0 <= i < |c| && Overlaps(c[i].resource, r);
      assert d[i] == c[i];
    } else if Overlaps(x.resource, r) {
      assert d[|c|] == x;
    }
  }

  // ----- release by swapping with the last

  /** The claims once the last one has been stored over the one at `i`. */
  function MoveLast(c: seq<Claim>, i: nat): (r: seq<Claim>)
    requires i < |c|
    ensures |r| == |c| - 1
  {
    c[i := c[|c| - 1]][..|c| - 1]
  }

  /** fl_resource_release_all from index `i` on. */
  function Swept(c: seq<Claim>, i: nat, dev: Owner): seq<Claim>
    decreases |c| - i
  {
    if i >= |c| then c
    else if c[i].owner == dev then Swept(MoveLast(c, i), i, dev)
    else Swept(c, i + 1, dev)
  }

  function Released(c: seq<Claim>, dev: Owner): seq<Claim> { Swept(c, 0, dev) }

  predicate OwnsNone(c: seq<Claim>, dev: Owner) {
    forall i :: 0 <= i < |c| ==> c[i].owner != dev
  }

  predicate OwnsAll(c: seq<Claim>, dev: Owner) {
    forall i :: 0 <= i < |c| ==> c[i].owner == dev
  }

  lemma MultisetParts(x: seq<Claim>, a: Claim, y: seq<Claim>, b: Claim)
    ensures multiset(x + [b] + y) == multiset(x + [a] + y + [b]) - multiset{a}
  {
    assert multiset(x + [b] + y) == multiset(x) + multiset{b} + multiset(y);
    assert multiset(x + [a] + y + [b]) == multiset(x) + multiset{a} + multiset(y) + multiset{b};
  }

  lemma MovedShape(c: seq<Claim>, i: nat)
    requires i < |c|
    ensures var n := |c| - 1;
            if i == n then c == MoveLast(c, i) + [c[i]]
            else c == c[..i] + [c[i]] + c[i + 1..n] + [c[n]] && MoveLast(c, i) == c[..i] + [c[n]] + c[i + 1..n]
  {
  }

  lemma MultisetSwap(c: seq<Claim>, i: nat)
    requires i < |c|
    ensures multiset(MoveLast(c, i)) == multiset(c) - multiset{c[i]}
  {
    hide MoveLast;
    MovedShape(c, i);
    var n := |c| - 1;
    if i < n { MultisetParts(c[..i], c[i], c[i + 1..n], c[n]); }
  }

  /** Whatever the order, release drops every claim of the device, and no other. */
  lemma {:induction false} SweepDropsExactly(c: seq<Claim>, i: nat, dev: Owner, x: Claim)
    requires i <= |c| && OwnsNone(c[..i], dev)
    ensures multiset(Swept(c, i, dev))[x] == if x.owner == dev then 0 else multiset(c)[x]
    decreases |c| - i
  {
    if i == |c| {
      assert c[..i] == c;
      assert x.owner == dev ==> x !in c;
    } else if c[i].owner == dev {
      var c' := MoveLast(c, i);
      MultisetSwap(c, i);
      assert c'[..i] == c[..i];
      SweepDropsExactly(c', i, dev, x);
    } else {
      assert c[..i + 1] == c[..i] + [c[i]];
      SweepDropsExactly(c, i + 1, dev, x);
    }
  }

  lemma ReleaseDropsExactly(c: seq<Claim>, dev: Owner, x: Claim)
    ensures multiset(Released(c, dev))[x] == if x.owner == dev then 0 else multiset(c)[x]
  {
    SweepDropsExactly(c, 0, dev, x);
  }

  /** When the device's claims are the last ones, release restores the table before them, order included. */
  lemma {:induction false} SweepRestores(c: seq<Claim>, mine: seq<Claim>, i: nat, dev: Owner)
    requires OwnsNone(c, dev) && OwnsAll(mine, dev) && i <= |c|
    ensures Swept(c + mine, i, dev) == c
    decreases |mine|, |c| - i
  {
    var t := c + mine;
    if i < |c| {
      assert t[i] == c[i];
      SweepRestores(c, mine, i + 1, dev);
    } else if mine == [] {
      assert t == c;
    } else {
      var n := |t| - 1;
      var rest := mine[0 := mine[|mine| - 1]][..|mine| - 1];
      assert t[i] == mine[0] && t[n] == mine[|mine| - 1];
      assert t[i := t[n]][..n] == c + rest;
      SweepRestores(c, rest, i, dev);
    }
  }

  lemma ReleaseRestores(c: seq<Claim>, mine: seq<Claim>, dev: Owner)
    requires OwnsNone(c, dev) && OwnsAll(mine, dev)
    ensures Released(c + mine, dev) == c
  {
    SweepRestores(c, mine, 0, dev);
  }

  // ----- binding

  /** driver_matches */
  predicate Matches(driver: Driver, d: Desc) {
    if driver.synthId.Some? && d.bus == SynthBus then driver.synthId.value == d.synthId
    else if driver.dtCompatible.Some? && d.bus == DtBus then driver.dtCompatible.value == d.dtCompatible
    else && d.bus == PciBus
         && (driver.pciClass == 0 || driver.pciClass == d.classCode)
         && (driver.pciSubclass == 0 || driver.pciSubclass == d.subclass)
         && (driver.pciClass != 0 || driver.pciSubclass != 0)
  }

  /** A driver takes devices of one bus by name, PCI devices by class and subclass with 0 for any, and no others. */
  lemma MatchesByBus(driver: Driver, d: Desc)
    ensures d.bus == SynthBus ==> (Matches(driver, d) <==> driver.synthId == Some(d.synthId))
    ensures d.bus == DtBus ==> (Matches(driver, d) <==> driver.dtCompatible == Some(d.dtCompatible))
    ensures d.bus == PciBus ==>
              (Matches(driver, d) <==> && driver.pciClass in {0, d.classCode} && driver.pciSubclass in {0, d.subclass}
                                       && !(driver.pciClass == driver.pciSubclass == 0))
    ensures Matches(driver, d) ==> d.bus != OtherBus && driver != Driver(None, None, 0, 0, driver.hasStop, driver.hasDetach)
  {
  }

  /**
   * What the model does not decide, for the i-th enumerated device: the address the allocator gives
   * it, if any, and whether driver d's probe and attach accept it (an absent one does).
   */
  datatype Oracle = Oracle(place: nat -> Option<Owner>, probe: (nat, nat) -> bool, attach: (nat, nat) -> bool)

  predicate Willing(drivers: seq<Driver>, o: Oracle, i: nat, desc: Desc, d: nat)
    requires d < |drivers|
  {
    Matches(drivers[d], desc) && o.probe(i, d) && o.attach(i, d)
  }

  /** The first driver from `d` on that takes the device; the number of drivers when none does. */
  function FirstWilling(drivers: seq<Driver>, o: Oracle, i: nat, desc: Desc, d: nat): (r: nat)
    requires d <= |drivers|
    ensures d <= r <= |drivers|
    ensures r < |drivers| ==> Willing(drivers, o, i, desc, r)
    ensures forall k :: d <= k < r ==> !Willing(drivers, o, i, desc, k)
    decreases |drivers| - d
  {
    if d == |drivers| || Willing(drivers, o, i, desc, d) then d else FirstWilling(drivers, o, i, desc, d + 1)
  }

  datatype Tables = Tables(claims: seq<Claim>, bound: seq<Bound>)

  predicate Live(t: Tables, dev: Owner) {
    exists k :: 0 <= k < |t.bound| && t.bound[k].dev == dev
  }

  /** The allocator never hands out the address of a live device. */
  function Created(t: Tables, o: Oracle, i: nat): Option<Owner> {
    match o.place(i)
    case None => None
    case Some(p) => if Live(t, p) then None else Some(p)
  }

  /** The device goes to the first willing driver if its resources fit, and otherwise leaves no trace. */
  ghost function BindDevice(t: Tables, drivers: seq<Driver>, o: Oracle, i: nat, desc: Desc): Tables {
    match Created(t, o, i)
    case None => t
    case Some(dev) =>
      var d := FirstWilling(drivers, o, i, desc, 0);
      if d < |drivers| && Fits(t.claims, desc.resources)
      then Tables(t.claims + Tagged(dev, desc.resources), t.bound + [Bound(dev, desc, drivers[d], Started)])
      else t
  }

  /**
   * A device is bound iff it could be created, its resources fit and some driver is willing.  It is then the last
   * device, started, with the first willing driver; nothing else changes.
   */
  lemma BindDecides(t: Tables, drivers: seq<Driver>, o: Oracle, i: nat, desc: Desc)
    ensures var r := BindDevice(t, drivers, o, i, desc);
            && (r != t <==> && o.place(i).Some? && !Live(t, o.place(i).value) && Fits(t.claims, desc.resources)
                            && exists d :: 0 <= d < |drivers| && Willing(drivers, o, i, desc, d))
            && (r != t ==> exists d ::
                  && 0 <= d < |drivers| && Willing(drivers, o, i, desc, d)
                  && (forall e :: 0 <= e < d ==> !Willing(drivers, o, i, desc, e))
                  && r.bound == t.bound + [Bound(o.place(i).value, desc, drivers[d], Started)]
                  && |r.claims| == |t.claims| + |desc.resources|
                  && (forall k :: 0 <= k < |r.claims| ==>
                        r.claims[k] == if k < |t.claims| then t.claims[k]
                                       else Claim(desc.resources[k - |t.claims|], o.place(i).value)))
  {
    hide Willing, Fits;
    var d := FirstWilling(drivers, o, i, desc, 0);
    if Created(t, o, i).Some? && d < |drivers| && Fits(t.claims, desc.resources) {
      var r := BindDevice(t, drivers, o, i, desc);
      assert |r.bound| == |t.bound| + 1;
    }
  }

  /** fl_drivers_init from the i-th enumerated device on. */
  ghost function BindAll(t: Tables, drivers: seq<Driver>, o: Oracle, descs: seq<Desc>, i: nat): Tables
    decreases |descs| - i
  {
    if i >= |descs| || |t.bound| >= MAX_DEVICES then t
    else BindAll(BindDevice(t, drivers, o, i, descs[i]), drivers, o, descs, i + 1)
  }

  /** Each device enumerated is offered in its turn, as long as there is room for one more. */
  lemma {:induction false} BindAllOffersEach(t: Tables, drivers: seq<Driver>, o: Oracle, descs: seq<Desc>, desc: Desc,
                                             i: nat)
    requires i <= |descs|
    ensures var r := BindAll(t, drivers, o, descs, i);
            BindAll(t, drivers, o, descs + [desc], i) ==
            if |r.bound| >= MAX_DEVICES then r else BindDevice(r, drivers, o, |descs|, desc)
    decreases |descs| - i
  {
    hide BindDevice;
    var more := descs + [desc];
    if |t.bound| < MAX_DEVICES {
      var u := BindDevice(t, drivers, o, i, more[i]);
      assert BindAll(t, drivers, o, more, i) == BindAll(u, drivers, o, more, i + 1);
      if i < |descs| {
        BindAllOffersEach(u, drivers, o, descs, desc, i + 1);
      }
    }
  }

  // ----- what holds of the tables

  /** The claims of the bound devices, in the order in which they were bound. */
  function ClaimsOf(bound: seq<Bound>): seq<Claim> {
    if bound == [] then [] else
      var b := bound[|bound| - 1];
      ClaimsOf(bound[..|bound| - 1]) + Tagged(b.dev, b.desc.resources)
  }

  predicate Separate(c: seq<Claim>) {
    forall i, j :: 0 <= i < j < |c| ==> !Overlaps(c[i].resource, c[j].resource)
  }

  predicate DistinctDevices(bound: seq<Bound>) {
    forall i, j :: 0 <= i < j < |bound| ==> bound[i].dev != bound[j].dev
  }

  ghost predicate Inv(t: Tables) {
    && |t.claims| <= MAX_RESOURCES && |t.bound| <= MAX_DEVICES
    && t.claims == ClaimsOf(t.bound)
    && Separate(t.claims)
    && DistinctDevices(t.bound)
    && (forall k :: 0 <= k < |t.bound| ==> t.bound[k].phase == Started && Matches(t.bound[k].driver, t.bound[k].desc))
  }

  lemma {:induction false} OwnersAreBound(bound: seq<Bound>, dev: Owner)
    requires forall k :: 0 <= k < |bound| ==> bound[k].dev != dev
    ensures OwnsNone(ClaimsOf(bound), dev)
  {
    if bound != [] { OwnersAreBound(bound[..|bound| - 1], dev); }
  }

  lemma SeparateAppend(c: seq<Claim>, dev: Owner, rs: seq<Resource>)
    requires Separate(c) && Fits(c, rs)
    ensures Separate(c + Tagged(dev, rs))
  {
    var t := c + Tagged(dev, rs);
    forall i, j | 0 <= i < j < |t| ensures !Overlaps(t[i].resource, t[j].resource) {
      if i < |c| <= j {
        assert !Blocked(c, rs[j - |c|]);
      } else if |c| <= i {
        assert !Overlaps(rs[i - |c|], rs[j - |c|]);
      }
    }
  }

  lemma BindDeviceInv(t: Tables, drivers: seq<Driver>, o: Oracle, i: nat, desc: Desc)
    requires Inv(t) && |t.bound| < MAX_DEVICES
    ensures Inv(BindDevice(t, drivers, o, i, desc))
  {
    var t' := BindDevice(t, drivers, o, i, desc);
    if t' != t {
      var dev := Created(t, o, i).value;
      SeparateAppend(t.claims, dev, desc.resources);
      assert t'.bound[..|t.bound|] == t.bound;
    }
  }

  /** Every run of fl_drivers_init keeps the tables sound. */
  lemma {:induction false} BindAllInv(t: Tables, drivers: seq<Driver>, o: Oracle, descs: seq<Desc>, i: nat)
    requires Inv(t)
    ensures Inv(BindAll(t, drivers, o, descs, i))
    decreases |descs| - i
  {
    hide Inv;
    if i < |descs| && |t.bound| < MAX_DEVICES {
      BindDeviceInv(t, drivers, o, i, descs[i]);
      BindAllInv(BindDevice(t, drivers, o, i, descs[i]), drivers, o, descs, i + 1);
    }
  }

  /** The resources a device holds, in table order. */
  function Owned(c: seq<Claim>, dev: Owner): seq<Resource> {
    if c == [] then [] else
      var x := c[|c| - 1];
      Owned(c[..|c| - 1], dev) + (if x.owner == dev then [x.resource] else [])
  }

  lemma {:induction false} OwnedConcat(c: seq<Claim>, d: seq<Claim>, dev: Owner)
    ensures Owned(c + d, dev) == Owned(c, dev) + Owned(d, dev)
  {
    if d == [] {
      assert c + d == c;
    } else {
      var e := c + d;
      assert e[..|e| - 1] == c + d[..|d| - 1];
      OwnedConcat(c, d[..|d| - 1], dev);
    }
  }

  lemma {:induction false} OwnedNone(c: seq<Claim>, dev: Owner)
    requires OwnsNone(c, dev)
    ensures Owned(c, dev) == []
  {
    if c != [] { OwnedNone(c[..|c| - 1], dev); }
  }

  lemma {:induction false} OwnedTagged(dev: Owner, rs: seq<Resource>)
    ensures Owned(Tagged(dev, rs), dev) == rs
  {
    if rs != [] {
      var n := |rs| - 1;
      assert Tagged(dev, rs)[..n] == Tagged(dev, rs[..n]);
      OwnedTagged(dev, rs[..n]);
      assert rs[..n] + [rs[n]] == rs;
    }
  }

  lemma {:induction false} BoundOwnsItsResources(bound: seq<Bound>, k: nat)
    requires DistinctDevices(bound) && k < |bound|
    ensures Owned(ClaimsOf(bound), bound[k].dev) == bound[k].desc.resources
  {
    var n := |bound| - 1;
    var rest, b, dev := bound[..n], bound[n], bound[k].dev;
    OwnedConcat(ClaimsOf(rest), Tagged(b.dev, b.desc.resources), dev);
    if k == n {
      OwnersAreBound(rest, dev);
      OwnedNone(ClaimsOf(rest), dev);
      OwnedTagged(dev, b.desc.resources);
    } else {
      BoundOwnsItsResources(rest, k);
      OwnedNone(Tagged(b.dev, b.desc.resources), dev);
    }
  }

  /** A bound device is started and owns exactly its descriptor's resources; any other device owns none. */
  lemma Ownership(t: Tables, dev: Owner)
    requires Inv(t)
    ensures !Live(t, dev) ==> Owned(t.claims, dev) == []
    ensures forall k :: 0 <= k < |t.bound| && t.bound[k].dev == dev ==>
              t.bound[k].phase == Started && Owned(t.claims, dev) == t.bound[k].desc.resources
  {
    if !Live(t, dev) {
      OwnersAreBound(t.bound, dev);
      OwnedNone(t.claims, dev);
    }
    forall k | 0 <= k < |t.bound| && t.bound[k].dev == dev
      ensures Owned(t.claims, dev) == t.bound[k].desc.resources
    {
      BoundOwnsItsResources(t.bound, k);
    }
  }

  /** No address and no interrupt line belongs to two claims, as long as no claimed range wraps. */
  lemma NothingIsShared(t: Tables, i: nat, j: nat)
    requires Inv(t) && i < j < |t.claims|
    requires !Wraps(t.claims[i].resource) && !Wraps(t.claims[j].resource)
    ensures !Meet(t.claims[i].resource, t.claims[j].resource)
  {
    OverlapsIffMeet(t.claims[i].resource, t.claims[j].resource);
  }

  // ----- teardown

  function Down(b: Bound): seq<Event> {
    (if b.phase == Started && b.driver.hasStop then [Stop(b.dev)] else [])
    + (if b.driver.hasDetach then [Detach(b.dev)] else [])
    + [Destroy(b.dev)]
  }

  /** A started device is stopped, then detached, by drivers that can, and destroyed last; nothing else is called. */
  lemma DownCalls(b: Bound)
    ensures Stop(b.dev) in Down(b) <==> b.phase == Started && b.driver.hasStop
    ensures Detach(b.dev) in Down(b) <==> b.driver.hasDetach
    ensures forall k :: 0 <= k < |Down(b)| ==>
              && Down(b)[k].dev == b.dev && (Down(b)[k].Destroy? <==> k == |Down(b)| - 1)
              && (Down(b)[k].Stop? ==> k == 0) && (Down(b)[k].Detach? ==> k == |Down(b)| - 2)
  {
    assert Down(b)[|Down(b)| - 1] == Destroy(b.dev);
  }

  /** The calls of fl_drivers_shutdown: the device bound last goes first. */
  function Teardown(bound: seq<Bound>): seq<Event> {
    if bound == [] then [] else Down(bound[|bound| - 1]) + Teardown(bound[..|bound| - 1])
  }

  function One(e: Event): seq<Owner> { if e.Destroy? then [e.dev] else [] }

  function Destroyed(calls: seq<Event>): seq<Owner> {
    if calls == [] then [] else One(calls[0]) + Destroyed(calls[1..])
  }

  lemma {:induction false} DestroyedConcat(a: seq<Event>, b: seq<Event>)
    ensures Destroyed(a + b) == Destroyed(a) + Destroyed(b)
  {
    hide One;
    if a == [] {
      assert a + b == b;
    } else {
      var rest := a[1..];
      assert (a + b)[1..] == rest + b;
      DestroyedConcat(rest, b);
      assert Destroyed(a + b) == One(a[0]) + (Destroyed(rest) + Destroyed(b));
    }
  }

  lemma DownDestroysOnce(b: Bound)
    ensures Destroyed(Down(b)) == [b.dev]
  {
    var stop := if b.phase == Started && b.driver.hasStop then [Stop(b.dev)] else [];
    var detach := if b.driver.hasDetach then [Detach(b.dev)] else [];
    DestroyedConcat(stop + detach, [Destroy(b.dev)]);
    DestroyedConcat(stop, detach);
    assert Destroyed(stop) == [] && Destroyed(detach) == [];
  }

  lemma TeardownFirst(bound: seq<Bound>)
    requires bound != []
    ensures var n := |bound| - 1;
            Destroyed(Teardown(bound)) == [bound[n].dev] + Destroyed(Teardown(bound[..n]))
  {
    hide Down, Destroyed;
    var n := |bound| - 1;
    assert Teardown(bound) == Down(bound[n]) + Teardown(bound[..n]);
    hide Teardown;
    DestroyedConcat(Down(bound[n]), Teardown(bound[..n]));
    DownDestroysOnce(bound[n]);
  }

  /** Teardown destroys every bound device exactly once, in the reverse of the order of binding. */
  lemma {:induction false} TeardownReverses(bound: seq<Bound>, k: nat)
    ensures |Destroyed(Teardown(bound))| == |bound|
    ensures k < |bound| ==> Destroyed(Teardown(bound))[k] == bound[|bound| - 1 - k].dev
  {
    hide Down, One;
    if bound != [] {
      hide Destroyed, Teardown;
      var rest := bound[..|bound| - 1];
      TeardownFirst(bound);
      TeardownReverses(rest, if k > 0 then k - 1 else 0);
    }
  }

  /** The calls for one device lie together, behind those for later devices and before those for earlier ones. */
  lemma {:induction false} TeardownAround(bound: seq<Bound>, k: nat)
    requires k < |bound|
    ensures Teardown(bound) == Teardown(bound[k + 1..]) + Down(bound[k]) + Teardown(bound[..k])
  {
    var n := |bound| - 1;
    var front := bound[..n];
    hide Down;
    assert Teardown(bound) == Down(bound[n]) + Teardown(front);
    if k == n {
      assert bound[k + 1..] == [] && Teardown(bound[k + 1..]) == [];
    } else {
      var later, mid, rest := Teardown(front[k + 1..]), Down(bound[k]), Teardown(bound[..k]);
      TeardownAround(front, k);
      assert front[..k] == bound[..k] && bound[k + 1..][..n - k - 1] == front[k + 1..];
      assert Teardown(bound[k + 1..]) == Down(bound[n]) + later;
      hide Teardown;
      Seqs.ConcatAssoc(Down(bound[n]), later, mid);
      Seqs.ConcatAssoc(Down(bound[n]), later + mid, rest);
    }
  }

  lemma TeardownLast(calls: seq<Event>, bound: seq<Bound>)
    requires bound != []
    ensures calls + Down(bound[|bound| - 1]) + Teardown(bound[..|bound| - 1]) == calls + Teardown(bound)
  {
    hide Down;
    var down, rest := Down(bound[|bound| - 1]), Teardown(bound[..|bound| - 1]);
    assert Teardown(bound) == down + rest;
    hide Teardown;
    Seqs.ConcatAssoc(calls, down, rest);
  }

  /** Taking the last device down leaves the claims exactly as they were before it was bound. */
  lemma LastDeviceReleased(bound: seq<Bound>)
    requires bound != [] && DistinctDevices(bound)
    ensures Released(ClaimsOf(bound), bound[|bound| - 1].dev) == ClaimsOf(bound[..|bound| - 1])
  {
    var n := |bound| - 1;
    OwnersAreBound(bound[..n], bound[n].dev);
    ReleaseRestores(ClaimsOf(bound[..n]), Tagged(bound[n].dev, bound[n].desc.resources), bound[n].dev);
  }
}

/** The static tables of the driver model. */
module DriverModel {
  import opened Basics
  import opened DriverSpec

  const NO_CLAIM := Claim(Resource(IoPort, 0, 0), 0)
  const NO_DESC := Desc(OtherBus, "", "", 0, 0, [])
  const NO_DRIVER := Driver(None, None, 0, 0, false, false)
  const NO_DEVICE := Bound(0, NO_DESC, NO_DRIVER, Probed)

  class Model {
    const resources: array<Claim>
    const devices: array<Bound>
    var resourceCount: nat
    var deviceCount: nat
    var drivers: seq<Driver>
    var initialized: bool
    var calls: seq<Event>

    ghost predicate Valid()
      reads this
    {
      && resources.Length == MAX_RESOURCES && devices.Length == MAX_DEVICES
      && resourceCount <= MAX_RESOURCES && deviceCount <= MAX_DEVICES
    }

    ghost function Claims(): seq<Claim>
      requires Valid()
      reads this, resources
    {
      resources[..resourceCount]
    }

    ghost function Contents(): Tables
      requires Valid()
      reads this, resources, devices
    {
      Tables(resources[..resourceCount], devices[..deviceCount])
    }

    constructor (registered: seq<Driver>)
      requires |registered| <= MAX_DRIVERS
      ensures Valid() && fresh(resources) && fresh(devices)
      ensures Contents() == Tables([], []) && Inv(Contents()) && !initialized && drivers == registered
    {
      resources := new Claim[MAX_RESOURCES](i => NO_CLAIM);
      devices := new Bound[MAX_DEVICES](i => NO_DEVICE);
      resourceCount, deviceCount, drivers, initialized, calls := 0, 0, registered, false, [];
    }

    /** claim_resource_desc */
    method ClaimResource(dev: Owner, r: Resource) returns (ok: bool)
      requires Valid()
      modifies this`resourceCount, resources
      ensures Valid()
      ensures ok == CanClaim(old(Claims()), r)
      ensures Claims() == if ok then old(Claims()) + [Claim(r, dev)] else old(Claims())
    {
      if resourceCount >= MAX_RESOURCES {
        return false;
      }
      for i := 0 to resourceCount
        invariant forall k :: 0 <= k < i ==> !Overlaps(resources[k].resource, r)
      {
        if Overlaps(resources[i].resource, r) {
          assert Overlaps(Claims()[i].resource, r);
          return false;
        }
      }
      resources[resourceCount] := Claim(r, dev);
      resourceCount := resourceCount + 1;
      return true;
    }

    /** fl_resource_release_all */
    method ReleaseAll(dev: Owner)
      requires Valid()
      modifies this`resourceCount, resources
      ensures Valid() && Claims() == Released(old(Claims()), dev)
    {
      var i := 0;
      while i < resourceCount
        invariant Valid() && i <= resourceCount
        invariant Swept(Claims(), i, dev) == Released(old(Claims()), dev)
        decreases resourceCount - i
      {
        ghost var c := Claims();
        if resources[i].owner == dev {
          resources[i] := resources[resourceCount - 1];
          resourceCount := resourceCount - 1;
          assert Claims() == MoveLast(c, i);
        } else {
          i := i + 1;
        }
      }
    }

    /** claim_device_resources: on refusal, what was claimed so far stays. */
    method ClaimDeviceResources(dev: Owner, rs: seq<Resource>) returns (ok: bool)
      requires Valid()
      modifies this`resourceCount, resources
      ensures Valid()
      ensures ok <==> Fits(old(Claims()), rs)
      ensures ok ==> Claims() == old(Claims()) + Tagged(dev, rs)
      ensures exists mine :: Claims() == old(Claims()) + mine && OwnsAll(mine, dev)
    {
      ghost var c := Claims();
      hide Fits;
      TakenIffFits(c, dev, rs);
      for i := 0 to |rs|
        invariant Valid()
        invariant Claims() == c + Tagged(dev, rs[..i])
        invariant Taken(c, dev, rs) == i + Taken(Claims(), dev, rs[i..])
      {
        assert rs[i..][0] == rs[i] && rs[i..][1..] == rs[i + 1..];
        var got := ClaimResource(dev, rs[i]);
        if !got {
          return false;
        }
        assert Tagged(dev, rs[..i + 1]) == Tagged(dev, rs[..i]) + [Claim(rs[i], dev)];
        assert Claims() == c + Tagged(dev, rs[..i + 1]);
      }
      assert rs[..|rs|] == rs;
      return true;
    }

    /** One driver's attempt at a device: PROBED, then claims, then attach; a failure undoes all of it. */
    method TryDriver(o: Oracle, i: nat, dev: Owner, desc: Desc, d: nat) returns (bound: bool)
      requires Valid() && deviceCount < MAX_DEVICES && d < |drivers|
      requires OwnsNone(Claims(), dev)
      modifies this`resourceCount, this`deviceCount, resources, devices
      ensures Valid()
      ensures bound <==> Willing(drivers, o, i, desc, d) && Fits(old(Claims()), desc.resources)
      ensures Contents() == if !bound then old(Contents()) else
                Tables(old(Claims()) + Tagged(dev, desc.resources),
                       old(Contents()).bound + [Bound(dev, desc, drivers[d], Started)])
    {
      hide Fits, Matches;
      ghost var was := Contents();
      if !Matches(drivers[d], desc) || !o.probe(i, d) {
        return false;
      }
      devices[deviceCount] := Bound(dev, desc, drivers[d], Probed);
      deviceCount := deviceCount + 1;
      var ok := ClaimDeviceResources(dev, desc.resources);
      ghost var mine :| Claims() == was.claims + mine && OwnsAll(mine, dev);
      ReleaseRestores(was.claims, mine, dev);
      if !ok || !o.attach(i, d) {
        ReleaseAll(dev);
        deviceCount := deviceCount - 1;
        assert Contents().bound == was.bound;
        return false;
      }
      devices[deviceCount - 1] := devices[deviceCount - 1].(phase := Attached);
      devices[deviceCount - 1] := devices[deviceCount - 1].(phase := Started);
      assert Contents().bound == was.bound + [Bound(dev, desc, drivers[d], Started)];
      return true;
    }

    /** The loop over the drivers for one device. */
    method Bind(o: Oracle, i: nat, dev: Owner, desc: Desc) returns (bound: bool)
      requires Valid() && deviceCount < MAX_DEVICES && OwnsNone(Claims(), dev)
      modifies this`resourceCount, this`deviceCount, resources, devices
      ensures Valid()
      ensures var d := FirstWilling(drivers, o, i, desc, 0);
              && bound == (d < |drivers| && Fits(old(Claims()), desc.resources))
              && Contents() == if !bound then old(Contents()) else
                   Tables(old(Claims()) + Tagged(dev, desc.resources),
                          old(Contents()).bound + [Bound(dev, desc, drivers[d], Started)])
    {
      hide Fits, Willing;
      ghost var was := Contents();
      for d := 0 to |drivers|
        invariant Valid() && Contents() == was && deviceCount == |was.bound|
        invariant Fits(was.claims, desc.resources) ==>
                    FirstWilling(drivers, o, i, desc, d) == FirstWilling(drivers, o, i, desc, 0)
      {
        bound := TryDriver(o, i, dev, desc, d);
        if bound {
          return true;
        }
      }
      return false;
    }

    /** fl_drivers_init over the enumerated devices. */
    method Init(o: Oracle, descs: seq<Desc>)
      requires Valid() && Inv(Contents())
      modifies this, resources, devices
      ensures Valid() && Inv(Contents()) && initialized && drivers == old(drivers)
      ensures Contents() == if old(initialized) then old(Contents()) else BindAll(old(Contents()), drivers, o, descs, 0)
    {
      hide Inv, BindDevice;
      if initialized {
        return;
      }
      ghost var was := Contents();
      BindAllInv(was, drivers, o, descs, 0);
      var i := 0;
      while i < |descs| && deviceCount < MAX_DEVICES
        invariant Valid() && Inv(Contents()) && i <= |descs| && drivers == old(drivers)
        invariant BindAll(Contents(), drivers, o, descs, i) == BindAll(was, drivers, o, descs, 0)
      {
        BindDeviceInv(Contents(), drivers, o, i, descs[i]);
        CreateAndBind(o, i, descs[i]);
        i := i + 1;
      }
      initialized := true;
    }

    method CreateAndBind(o: Oracle, i: nat, desc: Desc)
      requires Valid() && Inv(Contents()) && deviceCount < MAX_DEVICES
      modifies this`resourceCount, this`deviceCount, resources, devices
      ensures Valid() && Contents() == BindDevice(old(Contents()), drivers, o, i, desc)
    {
      hide Fits, FirstWilling;
      var place := o.place(i);
      if place.None? {
        return;
      }
      var live := IsLive(place.value);
      if live {
        return;
      }
      OwnersAreBound(Contents().bound, place.value);
      var _ := Bind(o, i, place.value, desc);
    }

    method IsLive(dev: Owner) returns (live: bool)
      requires Valid()
      ensures live == Live(Contents(), dev)
    {
      for k := 0 to deviceCount
        invariant forall j :: 0 <= j < k ==> devices[j].dev != dev
      {
        if devices[k].dev == dev {
          assert Contents().bound[k].dev == dev;
          return true;
        }
      }
      return false;
    }

    /** fl_drivers_shutdown: every device is taken down once, last bound first, and all tables end empty. */
    method Shutdown()
      requires Valid() && Inv(Contents())
      modifies this, resources, devices
      ensures Valid() && Contents() == Tables([], []) && drivers == [] && !initialized
      ensures calls == old(calls) + Teardown(old(Contents()).bound)
    {
      ghost var bound := Contents().bound;
      hide Released, Down, DistinctDevices;
      var i := deviceCount;
      assert bound[..i] == bound;
      while i > 0
        invariant Valid() && i <= deviceCount && devices[..deviceCount] == bound
        invariant Claims() == ClaimsOf(bound[..i])
        invariant calls + Teardown(bound[..i]) == old(calls) + Teardown(bound)
      {
        i := i - 1;
        TakeDown(i, bound);
      }
      assert resourceCount == 0;
      resourceCount, deviceCount, drivers, initialized := 0, 0, [], false;
    }

    method TakeDown(i: nat, ghost bound: seq<Bound>)
      requires Valid() && i < deviceCount && devices[..deviceCount] == bound && DistinctDevices(bound)
      requires Claims() == ClaimsOf(bound[..i + 1])
      modifies this`resourceCount, this`calls, resources
      ensures Valid() && Claims() == ClaimsOf(bound[..i])
      ensures calls + Teardown(bound[..i]) == old(calls) + Teardown(bound[..i + 1])
    {
      ghost var rest := bound[..i + 1];
      assert rest[..i] == bound[..i] && rest[i] == devices[i];
      LastDeviceReleased(rest);
      TeardownLast(calls, rest);
      hide Released, Down, ClaimsOf, Teardown, DistinctDevices;
      calls := calls + Down(devices[i]);
      ReleaseAll(devices[i].dev);
    }
  }
}
