/** The floating IP claim reconciler of pkg/ovn/floatingipclaim.go: one claim, its suballocator, late delete events. */
module FloatingIPClaim {
  import opened Wrappers
  import opened Cidr

  datatype PodID = PodID(name: string, namespace: string)

  datatype FloatingIP = FloatingIP(pod: PodID, address: Option<IP>, node: string)

  /** The claim's objects by name, those deleted whose event is still to come, the suballocator's
      used addresses, and the addresses a running sync has taken but not yet given to an object. */
  datatype Book = Book(objects: map<string, FloatingIP>, gone: set<string>, used: set<IP>, held: set<IP>)

  function Live(b: Book): set<string> {
    b.objects.Keys - b.gone
  }

  /** The pool addresses of the named objects. */
  function Addresses(pool: set<IP>, objects: map<string, FloatingIP>, names: set<string>): set<IP> {
    set n | n in names && n in objects && InPool(pool, objects[n]) :: objects[n].address.value
  }

  predicate InPool(pool: set<IP>, f: FloatingIP) {
    f.address.Some? && f.address.value in pool
  }

  /** No two objects have the same pool address. */
  predicate Distinct(pool: set<IP>, objects: map<string, FloatingIP>) {
    forall m, n | m in objects && n in objects && m != n && InPool(pool, objects[m]) && InPool(pool, objects[n]) ::
      objects[m].address != objects[n].address
  }

  predicate OnePerPod(b: Book) {
    b.gone <= b.objects.Keys
    && forall m, n | m in Live(b) && n in Live(b) && m != n :: b.objects[m].pod != b.objects[n].pod
  }

  /** The used addresses are those of objects that exist or whose delete event is pending, and those held. */
  predicate Exact(pool: set<IP>, b: Book) {
    && b.gone <= b.objects.Keys && Distinct(pool, b.objects) && b.held <= pool
    && b.held !! Addresses(pool, b.objects, b.objects.Keys)
    && b.used == Addresses(pool, b.objects, b.objects.Keys) + b.held
  }

  // ----- Atomic steps: others delete objects, events arrive, a sync takes, gives and returns addresses

  datatype Event =
    | Vanish(names: set<string>)
    | Deliver(name: string)
    | Take(address: IP)
    | Create(name: string, made: FloatingIP)
    | Return(address: IP)

  predicate Enabled(pool: set<IP>, b: Book, e: Event) {
    match e
    case Vanish(ns) => ns <= Live(b)
    // deleteFloatingIP needs the lock that sync holds until it has returned what it held
    case Deliver(n) => n in b.gone && b.held == {}
    case Take(a) => a in pool - b.used
    case Create(n, f) =>
      n !in b.objects && f.address.Some? && f.address.value in b.held
      && forall m | m in b.objects && m !in b.gone :: b.objects[m].pod != f.pod
    case Return(a) => a in b.held
  }

  /** deleteFloatingIP: an address that is not the pool's only gives a log line. */
  function Delivered(b: Book, name: string): Book
    requires name in b.objects
  {
    var used := if b.objects[name].address.Some? then b.used - {b.objects[name].address.value} else b.used;
    b.(objects := b.objects - {name}, gone := b.gone - {name}, used := used)
  }

  function Apply(pool: set<IP>, b: Book, e: Event): Book
    requires b.gone <= b.objects.Keys && Enabled(pool, b, e)
  {
    match e
    case Vanish(ns) => b.(gone := b.gone + ns)
    case Deliver(n) => Delivered(b, n)
    case Take(a) => b.(used := b.used + {a}, held := b.held + {a})
    case Create(n, f) => b.(objects := b.objects[n := f], held := b.held - {f.address.value})
    case Return(a) => b.(used := b.used - {a}, held := b.held - {a})
  }

  lemma {:induction false} DeliverKeeps(pool: set<IP>, b: Book, n: string)
    requires Exact(pool, b) && n in b.gone && b.held == {}
    ensures Exact(pool, Delivered(b, n))
  {
    var t := Delivered(b, n);
    var before, after := Addresses(pool, b.objects, b.objects.Keys), Addresses(pool, t.objects, t.objects.Keys);
    forall a
      ensures a in after <==> a in before && Some(a) != b.objects[n].address
    {
      if a in after {
        var m :| m in t.objects && InPool(pool, t.objects[m]) && t.objects[m].address.value == a;
        assert m != n && b.objects[m] == t.objects[m];
      }
      if a in before && Some(a) != b.objects[n].address {
        var m :| m in b.objects && InPool(pool, b.objects[m]) && b.objects[m].address.value == a;
        assert m in t.objects && t.objects[m] == b.objects[m];
      }
    }
  }

  lemma {:induction false} CreateKeeps(pool: set<IP>, b: Book, n: string, f: FloatingIP)
    requires Exact(pool, b) && n !in b.objects && f.address.Some? && f.address.value in b.held
    ensures Exact(pool, b.(objects := b.objects[n := f], held := b.held - {f.address.value}))
  {
    var t := b.(objects := b.objects[n := f], held := b.held - {f.address.value});
    var before, after := Addresses(pool, b.objects, b.objects.Keys), Addresses(pool, t.objects, t.objects.Keys);
    forall a
      ensures a in after <==> a in before || a == f.address.value
    {
      if a in after {
        var m :| m in t.objects && InPool(pool, t.objects[m]) && t.objects[m].address.value == a;
        assert m != n ==> m in b.objects && b.objects[m] == t.objects[m];
      }
      if a in before {
        var m :| m in b.objects && InPool(pool, b.objects[m]) && b.objects[m].address.value == a;
        assert m in t.objects && t.objects[m] == b.objects[m];
      }
      assert n in t.objects && t.objects[n] == f;
    }
    forall m | m in b.objects && InPool(pool, b.objects[m])
      ensures b.objects[m].address != f.address
    {
      assert b.objects[m].address.value in before;
    }
  }

  lemma {:induction false} StepKeepsExact(pool: set<IP>, b: Book, e: Event)
    requires Exact(pool, b) && Enabled(pool, b, e)
    ensures Exact(pool, Apply(pool, b, e))
  {
    match e
    case Vanish(_) =>
    case Deliver(n) => DeliverKeeps(pool, b, n);
    case Take(_) =>
    case Create(n, f) => CreateKeeps(pool, b, n, f);
    case Return(_) =>
  }

  lemma {:induction false} StepKeepsOnePerPod(pool: set<IP>, b: Book, e: Event)
    requires OnePerPod(b) && Enabled(pool, b, e)
    ensures OnePerPod(Apply(pool, b, e))
  {
    var t := Apply(pool, b, e);
    match e
    case Vanish(_) => assert Live(t) <= Live(b);
    case Deliver(n) => assert Live(t) <= Live(b);
    case Take(_) =>
    case Create(n, f) => assert Live(t) == Live(b) + {n};
    case Return(_) =>
  }

  ghost predicate Reaches(pool: set<IP>, b: Book, es: seq<Event>, t: Book)
    decreases |es|
  {
    if es == [] then t == b
    else b.gone <= b.objects.Keys && Enabled(pool, b, es[0]) && Reaches(pool, Apply(pool, b, es[0]), es[1..], t)
  }

  /** No run breaks the book: in every order of syncs' steps, deletions by others and late events. */
  lemma {:induction false} RunsKeepExact(pool: set<IP>, b: Book, es: seq<Event>, t: Book)
    requires Exact(pool, b) && OnePerPod(b) && Reaches(pool, b, es, t)
    ensures Exact(pool, t) && OnePerPod(t)
    decreases |es|
  {
    if es != [] {
      StepKeepsExact(pool, b, es[0]);
      StepKeepsOnePerPod(pool, b, es[0]);
      RunsKeepExact(pool, Apply(pool, b, es[0]), es[1..], t);
    }
  }

  /** Every used address belongs to an object that exists or whose event is pending, or is held. */
  predicate Owned(pool: set<IP>, b: Book) {
    && b.gone <= b.objects.Keys && b.held <= b.used && b.held <= pool
    && b.used <= Addresses(pool, b.objects, b.objects.Keys) + b.held
  }

  lemma {:induction false} StepKeepsOwned(pool: set<IP>, b: Book, e: Event)
    requires Owned(pool, b) && Enabled(pool, b, e)
    ensures Owned(pool, Apply(pool, b, e))
  {
    var t := Apply(pool, b, e);
    forall a | a in t.used
      ensures a in Addresses(pool, t.objects, t.objects.Keys) + t.held
    {
      if a in b.used && a !in b.held {
        var m :| m in b.objects && InPool(pool, b.objects[m]) && b.objects[m].address.value == a;
        assert m in t.objects && t.objects[m] == b.objects[m];
      } else if e.Create? && a == e.made.address.value {
        assert t.objects[e.name] == e.made;
      }
    }
  }

  /** No run loses an address, whatever state it starts from. */
  lemma {:induction false} RunsKeepOwned(pool: set<IP>, b: Book, es: seq<Event>, t: Book)
    requires Owned(pool, b) && Reaches(pool, b, es, t)
    ensures Owned(pool, t)
    decreases |es|
  {
    if es != [] {
      StepKeepsOwned(pool, b, es[0]);
      RunsKeepOwned(pool, Apply(pool, b, es[0]), es[1..], t);
    }
  }

  /** What a reader of the API sees after any run: no two live objects share a pool address or a pod. */
  lemma {:induction false} RunsKeepApart(pool: set<IP>, b: Book, es: seq<Event>, t: Book, m: string, n: string)
    requires Exact(pool, b) && OnePerPod(b) && Reaches(pool, b, es, t)
    requires m in Live(t) && n in Live(t) && m != n
    ensures t.objects[m].pod != t.objects[n].pod
    ensures InPool(pool, t.objects[m]) ==> t.objects[m].address.value in t.used && t.objects[m].address != t.objects[n].address
  {
    RunsKeepExact(pool, b, es, t);
  }

  // ----- A fresh suballocator

  /** A suballocator that was just made for objects that exist already: nothing used, no event pending that
      would free a pool address. */
  predicate Fresh(pool: set<IP>, b: Book) {
    && b.gone <= b.objects.Keys && Distinct(pool, b.objects) && b.used == {} && b.held == {}
    && Addresses(pool, b.objects, b.gone) == {}
  }

  /** The address of an adopted object is taken. */
  function Adopted(pool: set<IP>, b: Book, n: string): Book
    requires n in b.objects
  {
    if InPool(pool, b.objects[n]) then b.(used := b.used + {b.objects[n].address.value}) else b
  }

  /** While existing objects are adopted: used are the addresses of those done so far. */
  predicate Adopting(pool: set<IP>, b: Book, done: set<string>) {
    && b.gone <= b.objects.Keys && b.held == {} && done <= b.objects.Keys
    && b.used == Addresses(pool, b.objects, done)
  }

  lemma {:induction false} AdoptOne(pool: set<IP>, b: Book, done: set<string>, n: string)
    requires Adopting(pool, b, done) && n in b.objects && n !in done
    ensures Distinct(pool, b.objects) && InPool(pool, b.objects[n]) ==> b.objects[n].address.value !in b.used
    ensures Adopting(pool, Adopted(pool, b, n), done + {n})
  {
    AddressesMore(pool, b.objects, done, n);
  }

  lemma {:induction false} AddressesMore(pool: set<IP>, objects: map<string, FloatingIP>, names: set<string>, n: string)
    requires n in objects
    ensures Addresses(pool, objects, names + {n})
         == Addresses(pool, objects, names) + if InPool(pool, objects[n]) then {objects[n].address.value} else {}
  {
    var more := Addresses(pool, objects, names + {n});
    assert forall a | a in Addresses(pool, objects, names) :: a in more;
    assert InPool(pool, objects[n]) ==> objects[n].address.value in more;
  }

  /** A book whose used addresses are those of some objects is exact if and only if no two objects share a pool
      address and the others have none. */
  lemma {:induction false} AdoptionExactIff(pool: set<IP>, b: Book, done: set<string>)
    requires Adopting(pool, b, done)
    ensures Exact(pool, b) <==> Distinct(pool, b.objects) && Addresses(pool, b.objects, b.objects.Keys - done) == {}
  {
    var all, some, rest := Addresses(pool, b.objects, b.objects.Keys), b.used, Addresses(pool, b.objects, b.objects.Keys - done);
    assert all == some + rest by {
      assert forall n | n in b.objects :: n in done || n in b.objects.Keys - done;
      assert forall n | n in b.objects && InPool(pool, b.objects[n]) :: b.objects[n].address.value in some + rest;
    }
    if a :| a in rest {
      var n :| n in b.objects.Keys - done && n in b.objects && InPool(pool, b.objects[n]) && b.objects[n].address.value == a;
      if a in some {
        var m :| m in done && m in b.objects && InPool(pool, b.objects[m]) && b.objects[m].address.value == a;
        assert m != n;
      }
      assert !Exact(pool, b);
    }
  }

  // ----- The order of the adoption pass

  /** An object that stops the pass: it has no pool address to adopt, and its deletion fails. */
  predicate Blocks(pool: set<IP>, objects: map<string, FloatingIP>, fails: string -> bool, n: string) {
    n in objects && !InPool(pool, objects[n]) && fails(n)
  }

  /** The objects the pass deals with before it stops. */
  function Reached(pool: set<IP>, objects: map<string, FloatingIP>, fails: string -> bool, order: seq<string>): set<string> {
    if order == [] || Blocks(pool, objects, fails, order[0]) then {}
    else {order[0]} + Reached(pool, objects, fails, order[1..])
  }

  function Elements(order: seq<string>): set<string> {
    set n | n in order
  }

  predicate Orders(order: seq<string>, names: set<string>) {
    Elements(order) == names && forall i, k | 0 <= i < k < |order| :: order[i] != order[k]
  }

  /** The book after the pass over the live objects in some order. */
  function AfterPass(pool: set<IP>, b: Book, fails: string -> bool, order: seq<string>): Book {
    b.(used := Addresses(pool, b.objects, Reached(pool, b.objects, fails, order)))
  }

  /** No live object stops the pass, or there is no live object to adopt. */
  predicate Harmless(pool: set<IP>, b: Book, fails: string -> bool) {
    || (forall n | n in Live(b) :: !Blocks(pool, b.objects, fails, n))
    || (forall n | n in Live(b) && n in b.objects :: !InPool(pool, b.objects[n]))
  }

  lemma {:induction false} ReachedWithin(pool: set<IP>, objects: map<string, FloatingIP>, fails: string -> bool, order: seq<string>)
    ensures Reached(pool, objects, fails, order) <= Elements(order)
    ensures (forall n | n in order :: !Blocks(pool, objects, fails, n)) ==> Reached(pool, objects, fails, order) == Elements(order)
  {
    if order != [] {
      ReachedWithin(pool, objects, fails, order[1..]);
      assert order == [order[0]] + order[1..];
    }
  }

  lemma {:induction false} ReachedUpTo(pool: set<IP>, objects: map<string, FloatingIP>, fails: string -> bool,
                                       seen: seq<string>, n: string, rest: seq<string>)
    requires (forall m | m in seen :: !Blocks(pool, objects, fails, m)) && Blocks(pool, objects, fails, n)
    ensures Reached(pool, objects, fails, seen + [n] + rest) == Elements(seen)
  {
    var order := seen + [n] + rest;
    if seen == [] {
      assert order[0] == n;
    } else {
      ReachedUpTo(pool, objects, fails, seen[1..], n, rest);
      assert order[0] == seen[0] && order[1..] == seen[1..] + [n] + rest;
      assert seen == [seen[0]] + seen[1..];
    }
  }

  lemma {:induction false} OrdersMore(n: string, rest: seq<string>, names: set<string>)
    requires Orders(rest, names) && n !in names
    ensures Orders([n] + rest, names + {n}) && Orders(rest + [n], names + {n})
  {
    var front, back := [n] + rest, rest + [n];
    assert n !in rest by {
      assert n !in Elements(rest);
    }
    assert forall m :: m in front <==> m == n || m in rest;
    assert forall m :: m in back <==> m == n || m in rest;
    assert Elements(front) == names + {n} && Elements(back) == names + {n};
  }

  /** Some order of the names. */
  ghost function Enumerate(names: set<string>): (r: seq<string>)
    ensures Orders(r, names)
  {
    if names == {} then []
    else
      var n :| n in names;
      OrdersMore(n, Enumerate(names - {n}), names - {n});
      [n] + Enumerate(names - {n})
  }

  /** The pass of a fresh suballocator leaves the book exact if and only if no pool address is left out. */
  lemma {:induction false} PassExactIff(pool: set<IP>, b: Book, fails: string -> bool, order: seq<string>)
    requires Fresh(pool, b) && Orders(order, Live(b))
    ensures Exact(pool, AfterPass(pool, b, fails, order))
       <==> forall n | n in Live(b) && n in b.objects && InPool(pool, b.objects[n]) :: n in Reached(pool, b.objects, fails, order)
  {
    var done, t := Reached(pool, b.objects, fails, order), AfterPass(pool, b, fails, order);
    ReachedWithin(pool, b.objects, fails, order);
    AdoptionExactIff(pool, t, done);
    var rest := Addresses(pool, b.objects, b.objects.Keys - done);
    if a :| a in rest {
      var n :| n in b.objects.Keys - done && n in b.objects && InPool(pool, b.objects[n]) && b.objects[n].address.value == a;
      assert n in b.gone ==> a in Addresses(pool, b.objects, b.gone);
    }
    forall n | n in Live(b) && n in b.objects && InPool(pool, b.objects[n]) && n !in done
      ensures rest != {}
    {
      assert b.objects[n].address.value in rest;
    }
  }

  /** Every order of the pass leaves a fresh suballocator's book exact if and only if no live object stops the pass
      or none is to be adopted. */
  lemma {:induction false} EveryOrderExactIff(pool: set<IP>, b: Book, fails: string -> bool)
    requires Fresh(pool, b)
    ensures (forall order | Orders(order, Live(b)) :: Exact(pool, AfterPass(pool, b, fails, order))) <==> Harmless(pool, b, fails)
  {
    if Harmless(pool, b, fails) {
      forall order | Orders(order, Live(b))
        ensures Exact(pool, AfterPass(pool, b, fails, order))
      {
        HarmlessPass(pool, b, fails, order);
      }
    } else {
      var order := HarmfulOrder(pool, b, fails);
    }
  }

  /** The object that stops the pass comes first. */
  lemma {:induction false} HarmfulOrder(pool: set<IP>, b: Book, fails: string -> bool) returns (order: seq<string>)
    requires Fresh(pool, b) && !Harmless(pool, b, fails)
    ensures Orders(order, Live(b)) && !Exact(pool, AfterPass(pool, b, fails, order))
  {
    var x :| x in Live(b) && Blocks(pool, b.objects, fails, x);
    var rest := Enumerate(Live(b) - {x});
    order := [x] + rest;
    OrdersMore(x, rest, Live(b) - {x});
    assert Live(b) - {x} + {x} == Live(b);
    PassExactIff(pool, b, fails, order);
  }

  lemma {:induction false} HarmlessPass(pool: set<IP>, b: Book, fails: string -> bool, order: seq<string>)
    requires Fresh(pool, b) && Harmless(pool, b, fails) && Orders(order, Live(b))
    ensures Exact(pool, AfterPass(pool, b, fails, order))
  {
    ReachedWithin(pool, b.objects, fails, order);
    PassExactIff(pool, b, fails, order);
    assert forall n | n in order :: n in Elements(order);
  }

  /** Three live objects in the order of the pass: the first and the third with a pool address, the second without. */
  function ThreeObjects(a: IP, c: IP): Book {
    var one, two := FloatingIP(PodID("p", "1"), Some(a), "n"), FloatingIP(PodID("p", "2"), None, "n");
    Book(map["one" := one, "two" := two, "three" := FloatingIP(PodID("p", "3"), Some(c), "n")], {}, {}, {})
  }

  lemma {:induction false} ThreeObjectsAreFresh(a: IP, c: IP)
    requires a != c
    ensures Fresh({a, c}, ThreeObjects(a, c)) && OnePerPod(ThreeObjects(a, c))
    ensures Orders(["one", "two", "three"], Live(ThreeObjects(a, c)))
  {
    var b, order := ThreeObjects(a, c), ["one", "two", "three"];
    NamesDiffer();
    assert order[0] == "one" && order[1] == "two" && order[2] == "three";
    assert Elements(order) == Live(b);
  }

  lemma {:induction false} ThirdNotReached(a: IP, c: IP, fails: string -> bool)
    requires a != c && !fails("one") && fails("two")
    ensures AfterPass({a, c}, ThreeObjects(a, c), fails, ["one", "two", "three"]) == ThreeObjects(a, c).(used := {a})
  {
    var pool, b := {a, c}, ThreeObjects(a, c);
    NamesDiffer();
    assert ["one", "two", "three"] == ["one"] + ["two"] + ["three"];
    ReachedUpTo(pool, b.objects, fails, ["one"], "two", ["three"]);
    assert Elements(["one"]) == {"one"} && InPool(pool, b.objects["one"]);
  }

  /** An early exit of the first pass, and the next sync gives a live object's address to another:
      one object is adopted, the next cannot be deleted, and the third is never reached. */
  lemma {:induction false} EarlyExitSharesAddress(a: IP, c: IP)
    requires a != c
    ensures exists b, fails, order, t, f ::
      && Fresh({a, c}, b) && OnePerPod(b) && Orders(order, Live(b))
      && Reaches({a, c}, AfterPass({a, c}, b, fails, order), [Take(c), Create("new", f)], t)
      && "three" in Live(t) && "new" in Live(t) && t.objects["three"].address == t.objects["new"].address == Some(c)
  {
    var pool, b, fails, f := {a, c}, ThreeObjects(a, c), (n: string) => n == "two", FloatingIP(PodID("p", "4"), Some(c), "n");
    NamesDiffer();
    ThreeObjectsAreFresh(a, c);
    ThirdNotReached(a, c, fails);
    GivesAway(pool, b.(used := {a}), "three", "new", f);
  }

  lemma {:induction false} NamesDiffer()
    ensures "one" != "two" && "one" != "three" && "two" != "three" && "new" !in ["one", "two", "three"]
    ensures "1" != "2" && "1" != "3" && "1" != "4" && "2" != "3" && "2" != "4" && "3" != "4"
  {
    assert "one"[0] != "two"[0] && "one"[0] != "three"[0] && "two"[1] != "three"[1] && "new"[0] != "one"[0];
    assert "1"[0] != "2"[0] && "1"[0] != "3"[0] && "1"[0] != "4"[0] && "2"[0] != "3"[0] && "2"[0] != "4"[0] && "3"[0] != "4"[0];
  }

  /** The address of a live object that the suballocator does not know as used can be given to another. */
  lemma {:induction false} GivesAway(pool: set<IP>, b: Book, left: string, name: string, f: FloatingIP)
    requires b.gone <= b.objects.Keys && left in Live(b) && InPool(pool, b.objects[left])
    requires f.address == b.objects[left].address && f.address.value !in b.used
    requires name !in b.objects && forall m | m in Live(b) :: b.objects[m].pod != f.pod
    ensures exists t :: Reaches(pool, b, [Take(f.address.value), Create(name, f)], t)
                        && left in Live(t) && name in Live(t) && t.objects[left].address == t.objects[name].address == f.address
  {
    var es := [Take(f.address.value), Create(name, f)];
    var b1 := Apply(pool, b, es[0]);
    var b2 := Apply(pool, b1, es[1]);
    assert es[1..] == [es[1]] && es[1..][1..] == [];
    assert Reaches(pool, b1, es[1..], b2);
    assert Reaches(pool, b, es, b2);
  }

  /** A pending event the suballocator does not know of later frees an address that was given away again. */
  lemma {:induction false} UnknownEventFreesUsedAddress(pool: set<IP>, b: Book, stale: string, name: string, f: FloatingIP)
    requires b.held == {} && b.gone <= b.objects.Keys && stale in b.gone && InPool(pool, b.objects[stale])
    requires b.objects[stale].address.value !in b.used
    requires name !in b.objects && f.address == b.objects[stale].address
    requires forall m | m in Live(b) :: b.objects[m].pod != f.pod
    ensures exists t :: Reaches(pool, b, [Take(f.address.value), Create(name, f), Deliver(stale)], t)
                        && name in Live(t) && t.objects[name] == f && f.address.value !in t.used
  {
    var es := [Take(f.address.value), Create(name, f), Deliver(stale)];
    var b1 := Apply(pool, b, es[0]);
    var b2 := Apply(pool, b1, es[1]);
    var b3 := Apply(pool, b2, es[2]);
    assert es[1..] == [es[1], es[2]] && es[1..][1..] == [es[2]] && es[1..][1..][1..] == [];
    assert Reaches(pool, b2, [es[2]], b3);
    assert Reaches(pool, b1, es[1..], b3);
    assert Reaches(pool, b, es, b3);
  }

  // ----- The reconciler

  datatype Pod = Pod(id: PodID, hasIPs: bool)

  /** What the API does: objects whose deletion fails, pods whose object cannot be created, what others
      delete before a call about an object, and the names given to new objects. */
  datatype World = World(
    deleteFails: string -> bool,
    createFails: PodID -> bool,
    others: string -> set<string>,
    names: PodID -> string)

  datatype Reply = Deleted | NotFound | Failed

  datatype Result = Done | DeleteFailed

  /** Only deletions happened. */
  predicate OnlyVanished(b: Book, t: Book) {
    t == b.(gone := t.gone) && b.gone <= t.gone && t.gone <= b.objects.Keys
  }

  /** Someone else deletes the object at some time during the sync. */
  ghost predicate ByOthers(world: World, n: string) {
    exists m :: n in world.others(m)
  }

  /** Since b, the sync itself deleted at most these objects. */
  ghost predicate OnlyOthers(world: World, b: Book, t: Book, deleted: set<string>) {
    forall n | n in t.gone && n !in b.gone :: n in deleted || ByOthers(world, n)
  }

  /** The object is there, or someone else deleted it. */
  ghost predicate Stays(world: World, b: Book, n: string) {
    n in b.objects && (n in b.gone ==> ByOthers(world, n))
  }

  ghost predicate AllStay(world: World, b: Book, byPod: map<PodID, string>, ids: set<PodID>) {
    forall id | id in ids :: id in byPod && Stays(world, b, byPod[id])
  }

  lemma {:induction false} AllStayOn(world: World, b: Book, t: Book, byPod: map<PodID, string>, ids: set<PodID>, deleted: set<string>)
    requires AllStay(world, b, byPod, ids) && t.objects == b.objects && OnlyOthers(world, b, t, deleted)
    requires forall id | id in ids && id in byPod :: byPod[id] !in deleted
    ensures AllStay(world, t, byPod, ids)
  {
  }

  /** The pod has an object that was there before. */
  ghost predicate HasOld(world: World, b: Book, t: Book, id: PodID) {
    exists n :: n in Live(b) && n in b.objects && b.objects[n].pod == id && Stays(world, t, n)
  }

  /** The pod has a new object, with a pool address and a known node. */
  ghost predicate HasNew(world: World, pool: set<IP>, nodes: set<string>, t: Book, id: PodID) {
    var n := world.names(id);
    && Stays(world, t, n) && t.objects[n].pod == id && InPool(pool, t.objects[n]) && t.objects[n].node in nodes
  }

  /** A pod without addresses, or whose object the API does not create. */
  predicate Refused(world: World, pod: Pod) {
    !pod.hasIPs || world.createFails(pod.id)
  }

  predicate Covers(b: Book, pods: set<PodID>) {
    forall n | n in Live(b) :: n in b.objects && b.objects[n].pod in pods
  }

  lemma {:induction false} VanishedKeeps(pool: set<IP>, b: Book, t: Book, done: set<string>, pods: set<PodID>)
    requires OnlyVanished(b, t)
    ensures Exact(pool, b) ==> Exact(pool, t)
    ensures OnePerPod(b) ==> OnePerPod(t)
    ensures Adopting(pool, b, done) ==> Adopting(pool, t, done)
    ensures Covers(b, pods) ==> Covers(t, pods)
  {
    assert Live(t) <= Live(b);
  }

  /** At most one new object, the pod's; the others only vanish. */
  ghost predicate Extends(world: World, id: PodID, b: Book, t: Book) {
    var name := world.names(id);
    && t.objects.Keys - {name} == b.objects.Keys && (forall n | n in b.objects :: t.objects[n] == b.objects[n])
    && (name in t.objects ==> t.objects[name].pod == id)
    && b.gone <= t.gone && t.gone <= b.objects.Keys && OnlyOthers(world, b, t, {})
  }

  lemma {:induction false} ExtendsTaken(world: World, id: PodID, b: Book, taken: Book, t: Book)
    requires taken.objects == b.objects && taken.gone == b.gone && Extends(world, id, taken, t)
    ensures Extends(world, id, b, t)
  {
  }

  lemma {:induction false} HasNewStays(world: World, pool: set<IP>, nodes: set<string>, b: Book, t: Book, made: PodID, id: PodID)
    requires Extends(world, made, b, t) && HasNew(world, pool, nodes, b, id)
    ensures HasNew(world, pool, nodes, t, id)
  {
  }

  /** No live object of the pod, and its new name is unused. */
  predicate Wanting(world: World, b: Book, id: PodID) {
    world.names(id) !in b.objects && forall n | n in Live(b) :: n in b.objects && b.objects[n].pod != id
  }

  lemma {:induction false} WantingStays(world: World, b: Book, t: Book, made: PodID, id: PodID)
    requires Extends(world, made, b, t) && Wanting(world, b, id)
    requires made != id && world.names(made) != world.names(id)
    ensures Wanting(world, t, id)
  {
    assert forall n | n in Live(t) :: n in Live(b) || n == world.names(made);
  }

  /** The objects of t that b does not have, on the given node. */
  function NewOn(b: Book, t: Book, node: string): set<string> {
    set m | m in t.objects && m !in b.objects && t.objects[m].node == node
  }

  predicate Keeps(b: Book, t: Book) {
    b.objects.Keys <= t.objects.Keys && (forall n | n in b.objects :: t.objects[n] == b.objects[n]) && b.gone <= t.gone
  }

  /** Counts, less what is held, have grown by the objects created. */
  predicate Grown(base: map<string, nat>, nodes: map<string, nat>, held: multiset<string>, heldNow: multiset<string>,
                  b: Book, t: Book)
  {
    nodes.Keys == base.Keys && forall n | n in base :: nodes[n] + held[n] == base[n] + heldNow[n] + |NewOn(b, t, n)|
  }

  lemma {:induction false} GrownMore(n0: map<string, nat>, n1: map<string, nat>, n2: map<string, nat>,
                                     h0: multiset<string>, h1: multiset<string>, h2: multiset<string>, b: Book, t: Book, u: Book)
    requires Grown(n0, n1, h0, h1, b, t) && Grown(n1, n2, h1, h2, t, u) && Keeps(b, t) && Keeps(t, u)
    ensures Grown(n0, n2, h0, h2, b, u)
  {
    forall n | n in n0
      ensures |NewOn(b, u, n)| == |NewOn(b, t, n)| + |NewOn(t, u, n)|
    {
      assert NewOn(b, u, n) == NewOn(b, t, n) + NewOn(t, u, n);
      assert NewOn(b, t, n) !! NewOn(t, u, n);
    }
  }

  /** Holding one more node, or having made the object it was for. */
  lemma {:induction false} GrownByOne(base: map<string, nat>, nodes: map<string, nat>, held: multiset<string>,
                                      heldNow: multiset<string>, b: Book, t: Book, name: string, node: string)
    requires nodes.Keys == base.Keys && forall n | n in base :: nodes[n] + held[n] == base[n] + heldNow[n]
    requires name !in b.objects && t.objects.Keys - {name} == b.objects.Keys
    requires name in t.objects ==> t.objects[name].node == node && node in heldNow
    ensures Grown(base, nodes, held, if name in t.objects then heldNow - multiset{node} else heldNow, b, t)
  {
    forall n | n in base
      ensures NewOn(b, t, n) == if name in t.objects && n == node then {name} else {}
    {
    }
  }

  lemma {:induction false} GrownByNone(base: map<string, nat>, nodes: map<string, nat>, held: multiset<string>,
                                       heldNow: multiset<string>, b: Book, t: Book)
    requires nodes.Keys == base.Keys && forall n | n in base :: nodes[n] + held[n] == base[n] + heldNow[n]
    requires t.objects == b.objects
    ensures Grown(base, nodes, held, heldNow, b, t)
  {
    assert forall n :: NewOn(b, t, n) == {};
  }

  function RefusedAmong(world: World, pods: map<PodID, Pod>, ids: set<PodID>): set<PodID> {
    set id | id in ids && id in pods && Refused(world, pods[id])
  }

  /** One more address held for one more refused pod, or none. */
  lemma {:induction false} HeldCount(world: World, pods: map<PodID, Pod>, ids: set<PodID>, id: PodID, was: set<IP>, now: set<IP>, left: set<IP>)
    requires now <= was + left && |left| <= 1 && |was| <= |RefusedAmong(world, pods, ids)| && id in pods && id !in ids
    ensures |now| <= |RefusedAmong(world, pods, ids)| + 1
    ensures left == {} || Refused(world, pods[id]) ==> |now| <= |RefusedAmong(world, pods, ids + {id})|
  {
    var some, more := RefusedAmong(world, pods, ids), RefusedAmong(world, pods, ids + {id});
    assert more == if Refused(world, pods[id]) then some + {id} else some;
    SubsetCount(now, was + left);
  }

  lemma {:induction false} SubsetCount<T>(a: set<T>, b: set<T>)
    requires a <= b
    ensures |a| <= |b|
  {
    assert b == a + (b - a);
  }

  function Names(byPod: map<PodID, string>, ids: set<PodID>): set<string> {
    set id | id in ids && id in byPod :: byPod[id]
  }

  lemma {:induction false} NamesMore(byPod: map<PodID, string>, ids: set<PodID>, id: PodID, objects: map<string, FloatingIP>)
    requires id in byPod && id !in ids && ids <= byPod.Keys
    requires forall i | i in byPod :: byPod[i] in objects && objects[byPod[i]].pod == i
    ensures Names(byPod, ids + {id}) == Names(byPod, ids) + {byPod[id]} && byPod[id] !in Names(byPod, ids)
  {
  }

  lemma {:induction false} OrdersJoined(seen: seq<string>, n: string, rest: seq<string>, done: set<string>, live: set<string>)
    requires Orders(seen, done) && n !in done && done <= live && n in live && Orders(rest, live - done - {n})
    ensures Orders(seen + [n] + rest, live)
  {
    var order := seen + [n] + rest;
    assert forall m :: m in order <==> m in seen || m == n || m in rest;
    assert forall m :: m in seen <==> m in done by {
      assert forall m :: m in seen <==> m in Elements(seen);
    }
    assert forall m :: m in rest <==> m in live - done - {n} by {
      assert forall m :: m in rest <==> m in Elements(rest);
    }
    assert Elements(order) == live;
    forall i, k | 0 <= i < k < |order|
      ensures order[i] != order[k]
    {
      if i < |seen| {
        assert order[i] == seen[i] && order[i] in seen;
        assert k > |seen| ==> order[k] == rest[k - |seen| - 1] && order[k] in rest;
      } else {
        assert k > |seen| && order[k] == rest[k - |seen| - 1] && order[k] in rest;
      }
    }
  }

  /** The order of a pass that stopped: what was seen, what stopped it, and the rest. */
  lemma {:induction false} StoppedOrder(pool: set<IP>, live: set<string>, objects: map<string, FloatingIP>,
                                        fails: string -> bool, done: set<string>, seen: seq<string>, n: string)
      returns (order: seq<string>)
    requires Orders(seen, done) && done <= live && n in live && n !in done
    requires Distinct(pool, objects) ==> (forall m | m in seen :: !Blocks(pool, objects, fails, m)) && Blocks(pool, objects, fails, n)
    ensures Distinct(pool, objects) ==> Orders(order, live) && done == Reached(pool, objects, fails, order)
  {
    var rest := Enumerate(live - done - {n});
    order := seen + [n] + rest;
    OrdersJoined(seen, n, rest, done, live);
    if Distinct(pool, objects) {
      ReachedUpTo(pool, objects, fails, seen, n, rest);
    }
  }

  /** The pass over the existing objects of a fresh suballocator, with the pods in todo still ahead. */
  ghost predicate Passing(world: World, pool: set<IP>, b: Book, t: Book, byPod: map<PodID, string>, todo: set<PodID>,
                          kept: set<PodID>, done: set<string>, seen: seq<string>)
  {
    && todo <= byPod.Keys && kept <= byPod.Keys - todo && OnlyVanished(b, t.(used := b.used))
    && done == Names(byPod, byPod.Keys - todo) && Orders(seen, done)
    && Adopting(pool, t, done) && OnePerPod(t) && Covers(t, kept + todo) && AllStay(world, t, byPod, kept + todo)
    && (Distinct(pool, b.objects) ==> NoneBlocked(pool, b.objects, world.deleteFails, seen) && Adoptable(pool, b.objects, byPod, todo, kept))
  }

  ghost predicate NoneBlocked(pool: set<IP>, objects: map<string, FloatingIP>, fails: string -> bool, seen: seq<string>) {
    forall m | m in seen :: !Blocks(pool, objects, fails, m)
  }

  /** Kept are the pods whose objects have a pool address, among those done. */
  ghost predicate Adoptable(pool: set<IP>, objects: map<string, FloatingIP>, byPod: map<PodID, string>, todo: set<PodID>, kept: set<PodID>) {
    forall id :: id in kept <==> id in byPod && id !in todo && byPod[id] in objects && InPool(pool, objects[byPod[id]])
  }

  lemma {:induction false} PassingOn(world: World, pool: set<IP>, b: Book, t: Book, u: Book, byPod: map<PodID, string>, todo: set<PodID>,
                                     kept: set<PodID>, done: set<string>, seen: seq<string>, id: PodID, adopted: bool)
    requires Passing(world, pool, b, t, byPod, todo, kept, done, seen) && id in todo
    requires byPod.Values == Live(b) && forall i | i in byPod :: byPod[i] in b.objects && b.objects[byPod[i]].pod == i
    requires OnlyVanished(t, u.(used := t.used)) && OnePerPod(u) && Adopting(pool, u, done + {byPod[id]}) && Covers(u, kept + todo)
    requires !adopted ==> byPod[id] !in Live(u)
    requires OnlyOthers(world, t, u, if adopted then {} else {byPod[id]})
    requires Distinct(pool, b.objects) ==>
               (adopted <==> InPool(pool, b.objects[byPod[id]])) && !Blocks(pool, b.objects, world.deleteFails, byPod[id])
    ensures Passing(world, pool, b, u, byPod, todo - {id}, if adopted then kept + {id} else kept, done + {byPod[id]}, seen + [byPod[id]])
  {
    var more, rest := if adopted then kept + {id} else kept, todo - {id};
    NamesMore(byPod, byPod.Keys - todo, id, b.objects);
    assert byPod.Keys - rest == byPod.Keys - todo + {id};
    OrdersMore(byPod[id], seen, done);
    assert more + rest <= kept + todo;
    assert AllStay(world, t, byPod, more + rest);
    AllStayOn(world, t, u, byPod, more + rest, if adopted then {} else {byPod[id]});
    forall n | n in Live(u)
      ensures n in u.objects && u.objects[n].pod in more + rest
    {
      assert n in byPod.Values;
      var i :| i in byPod && byPod[i] == n;
    }
  }

  // ----- What creating objects keeps

  /** Since b, addresses were only taken from the pool; they are held, or have a new object. */
  predicate Gains(pool: set<IP>, b: Book, t: Book) {
    && b.used <= t.used && t.held !! b.used
    && t.used <= b.used + t.held + Addresses(pool, t.objects, t.objects.Keys - b.objects.Keys)
  }

  /** What holds all along, if it held at b. */
  predicate Kept(pool: set<IP>, b: Book, t: Book) {
    && Keeps(b, t) && t.gone <= t.objects.Keys && Gains(pool, b, t)
    && (Owned(pool, b) ==> Owned(pool, t))
    && (Exact(pool, b) ==> Exact(pool, t))
    && (OnePerPod(b) ==> OnePerPod(t))
  }

  lemma {:induction false} KeptAtStart(pool: set<IP>, b: Book)
    requires b.gone <= b.objects.Keys && b.held == {}
    ensures Kept(pool, b, b)
  {
  }

  lemma {:induction false} KeptByTake(pool: set<IP>, b: Book, t: Book, a: IP)
    requires Kept(pool, b, t) && a in pool - t.used
    ensures Kept(pool, b, t.(used := t.used + {a}, held := t.held + {a}))
  {
    var e := Take(a);
    assert Enabled(pool, t, e);
    if Owned(pool, t) {
      StepKeepsOwned(pool, t, e);
    }
    if Exact(pool, t) {
      StepKeepsExact(pool, t, e);
    }
  }

  lemma {:induction false} KeptByVanish(pool: set<IP>, b: Book, t: Book, u: Book)
    requires Kept(pool, b, t) && OnlyVanished(t, u)
    ensures Kept(pool, b, u)
  {
    VanishedKeeps(pool, t, u, {}, {});
  }

  lemma {:induction false} KeptByCreate(pool: set<IP>, b: Book, t: Book, n: string, f: FloatingIP)
    requires Kept(pool, b, t) && Enabled(pool, t, Create(n, f)) && f.address.value in pool
    ensures Kept(pool, b, Apply(pool, t, Create(n, f)))
  {
    var e := Create(n, f);
    var u := Apply(pool, t, e);
    if Owned(pool, t) {
      StepKeepsOwned(pool, t, e);
    }
    if Exact(pool, t) {
      StepKeepsExact(pool, t, e);
    }
    if OnePerPod(t) {
      StepKeepsOnePerPod(pool, t, e);
    }
    GainsByCreate(pool, b, t, n, f);
  }

  lemma {:induction false} GainsByCreate(pool: set<IP>, b: Book, t: Book, n: string, f: FloatingIP)
    requires Keeps(b, t) && Gains(pool, b, t) && n !in t.objects && InPool(pool, f) && f.address.value in t.held
    ensures Gains(pool, b, t.(objects := t.objects[n := f], held := t.held - {f.address.value}))
  {
    var u := t.(objects := t.objects[n := f], held := t.held - {f.address.value});
    forall a | a in t.used
      ensures a in b.used + u.held + Addresses(pool, u.objects, u.objects.Keys - b.objects.Keys)
    {
      if a == f.address.value {
        assert n in u.objects.Keys - b.objects.Keys && u.objects[n] == f;
      } else if a !in b.used && a !in t.held {
        var m :| m in t.objects.Keys - b.objects.Keys && m in t.objects && InPool(pool, t.objects[m]) && t.objects[m].address.value == a;
        assert m in u.objects && u.objects[m] == t.objects[m];
      }
    }
  }

  /** Giving back what is held ends it well. */
  lemma {:induction false} KeptUnwound(pool: set<IP>, b: Book, t: Book, u: Book)
    requires b.held == {} && Kept(pool, b, t) && u == t.(used := t.used - t.held, held := {})
    ensures Kept(pool, b, u)
  {
    assert Addresses(pool, u.objects, u.objects.Keys - b.objects.Keys) == Addresses(pool, t.objects, t.objects.Keys - b.objects.Keys);
  }

  /** A sync that found addresses in use does not repair a book: it is exact afterwards if and only if it was before. */
  lemma {:induction false} NeverRepaired(pool: set<IP>, b: Book, t: Book)
    requires Owned(pool, b) && b.held == {} && t.held == {} && Kept(pool, b, t)
    ensures Exact(pool, t) <==> Exact(pool, b)
  {
    if Exact(pool, t) {
      forall m, n | m in b.objects && n in b.objects && m != n && InPool(pool, b.objects[m]) && InPool(pool, b.objects[n])
        ensures b.objects[m].address != b.objects[n].address
      {
        assert t.objects[m] == b.objects[m] && t.objects[n] == b.objects[n];
      }
      forall n | n in b.objects && InPool(pool, b.objects[n])
        ensures b.objects[n].address.value in b.used
      {
        var a := b.objects[n].address.value;
        assert t.objects[n] == b.objects[n] && a in Addresses(pool, t.objects, t.objects.Keys) && a in t.used;
        forall m | m in t.objects.Keys - b.objects.Keys && InPool(pool, t.objects[m])
          ensures t.objects[m].address.value != a
        {
          assert m != n;
        }
      }
    }
  }

  /** The loop over the pods without an object, those in todo still ahead. */
  ghost predicate Creating(world: World, pool: set<IP>, pods: map<PodID, Pod>, b: Book, t: Book, ids: set<PodID>, todo: set<PodID>,
                           n0: map<string, nat>, n1: map<string, nat>, h0: multiset<string>, h1: multiset<string>)
  {
    && ids <= pods.Keys && todo <= ids && Kept(pool, b, t) && OnlyOthers(world, b, t, {})
    && Grown(n0, n1, h0, h1, b, t)
    && (forall id | id in todo :: Wanting(world, t, id))
    && Served(world, pool, pods, t, ids - todo, n0.Keys)
    && |t.held| <= |RefusedAmong(world, pods, ids - todo)|
  }

  ghost predicate Served(world: World, pool: set<IP>, pods: map<PodID, Pod>, t: Book, ids: set<PodID>, nodes: set<string>) {
    forall id | id in ids && id in pods :: HasNew(world, pool, nodes, t, id) || Refused(world, pods[id])
  }

  lemma {:induction false} CreatingAtStart(world: World, pool: set<IP>, pods: map<PodID, Pod>, b: Book, ids: set<PodID>,
                                           n0: map<string, nat>, h0: multiset<string>)
    requires b.gone <= b.objects.Keys && b.held == {} && ids <= pods.Keys && forall id | id in ids :: Wanting(world, b, id)
    ensures Creating(world, pool, pods, b, b, ids, ids, n0, n0, h0, h0)
  {
    KeptAtStart(pool, b);
    assert forall n :: NewOn(b, b, n) == {};
    assert ids - ids == {};
  }

  lemma {:induction false} ServedOn(world: World, pool: set<IP>, pods: map<PodID, Pod>, t: Book, u: Book, ids: set<PodID>, id: PodID, nodes: set<string>)
    requires Served(world, pool, pods, t, ids, nodes) && Extends(world, id, t, u) && id in pods
    requires HasNew(world, pool, nodes, u, id) || Refused(world, pods[id])
    ensures Served(world, pool, pods, u, ids + {id}, nodes)
  {
    forall i | i in ids && i in pods && HasNew(world, pool, nodes, t, i)
      ensures HasNew(world, pool, nodes, u, i)
    {
      HasNewStays(world, pool, nodes, t, u, id, i);
    }
  }

  lemma {:induction false} WantingOn(world: World, pods: map<PodID, Pod>, t: Book, u: Book, todo: set<PodID>, id: PodID)
    requires (forall i | i in todo :: Wanting(world, t, i)) && Extends(world, id, t, u) && id in todo && todo <= pods.Keys
    requires forall i, k | i in pods && k in pods && i != k :: world.names(i) != world.names(k)
    ensures forall i | i in todo - {id} :: Wanting(world, u, i)
  {
    forall i | i in todo - {id}
      ensures Wanting(world, u, i)
    {
      WantingStays(world, t, u, id, i);
    }
  }

  lemma {:induction false} CreatingOn(world: World, pool: set<IP>, pods: map<PodID, Pod>, b: Book, t: Book, u: Book, ids: set<PodID>,
                                      todo: set<PodID>, id: PodID, n0: map<string, nat>, n1: map<string, nat>, n2: map<string, nat>,
                                      h0: multiset<string>, h1: multiset<string>, h2: multiset<string>, stop: bool, left: set<IP>)
    requires Creating(world, pool, pods, b, t, ids, todo, n0, n1, h0, h1) && id in todo && pods[id].id == id
    requires forall i, k | i in pods && k in pods && i != k :: world.names(i) != world.names(k)
    requires Kept(pool, b, u) && Extends(world, id, t, u) && Keeps(t, u) && Grown(n1, n2, h1, h2, t, u)
    requires !stop ==> HasNew(world, pool, n2.Keys, u, id) || Refused(world, pods[id])
    requires u.held <= t.held + left && |left| <= 1 && (left != {} && !stop ==> Refused(world, pods[id]))
    ensures Kept(pool, b, u) && OnlyOthers(world, b, u, {}) && Grown(n0, n2, h0, h2, b, u)
    ensures !stop ==> Creating(world, pool, pods, b, u, ids, todo - {id}, n0, n2, h0, h2)
    ensures |u.held| <= |RefusedAmong(world, pods, ids)| + 1
    ensures left == {} || Refused(world, pods[id]) ==> |u.held| <= |RefusedAmong(world, pods, ids)|
  {
    GrownMore(n0, n1, n2, h0, h1, h2, b, t, u);
    HeldCount(world, pods, ids - todo, id, t.held, u.held, left);
    SubsetCount(RefusedAmong(world, pods, ids - todo), RefusedAmong(world, pods, ids));
    SubsetCount(RefusedAmong(world, pods, ids - todo + {id}), RefusedAmong(world, pods, ids));
    if !stop {
      assert ids - (todo - {id}) == ids - todo + {id};
      WantingOn(world, pods, t, u, todo, id);
      ServedOn(world, pool, pods, t, u, ids - todo, id, n0.Keys);
    }
  }

  class ClaimController {
    const pool: set<IP>
    var book: Book
    var nodes: map<string, nat>
    /** Nodes counted by a running sync for objects it has not created. */
    var heldNodes: multiset<string>

    constructor (pool: set<IP>, nodes: map<string, nat>)
      ensures this.pool == pool && this.nodes == nodes && heldNodes == multiset{}
      ensures book == Book(map[], {}, {}, {}) && Exact(pool, book) && OnePerPod(book)
    {
      this.pool, this.nodes := pool, nodes;
      book := Book(map[], {}, {}, {});
      heldNodes := multiset{};
    }

    /** The event of a deleted object: its address is free again, and its node counts one less. */
    method DeleteFloatingIP(n: string)
      requires n in book.gone && book.gone <= book.objects.Keys && book.held == {}
      modifies this`book, this`nodes
      ensures book == Delivered(old(book), n)
      ensures nodes.Keys == old(nodes).Keys
      ensures forall m | m in nodes :: nodes[m] == if m == old(book.objects[n].node) && old(nodes)[m] > 0
                                                   then old(nodes)[m] - 1 else old(nodes)[m]
      ensures Exact(pool, old(book)) ==> Exact(pool, book)
      ensures Owned(pool, old(book)) ==> Owned(pool, book)
    {
      ghost var was := book;
      var f := book.objects[n];
      if f.address.Some? {
        book := book.(used := book.used - {f.address.value});
      }
      Release(f.node);
      book := book.(objects := book.objects - {n}, gone := book.gone - {n});
      if Exact(pool, was) {
        DeliverKeeps(pool, was, n);
      }
      if Owned(pool, was) {
        StepKeepsOwned(pool, was, Deliver(n));
      }
    }

    /** Release: an unknown node and a zero count are left alone. */
    method Release(node: string)
      modifies this`nodes
      ensures nodes == if node in old(nodes) && old(nodes)[node] > 0 then old(nodes)[node := old(nodes)[node] - 1] else old(nodes)
    {
      if node in nodes && nodes[node] > 0 {
        nodes := nodes[node := nodes[node] - 1];
      }
    }

    /** Allocate: some node, if there is any; a zero minimum counts as none found yet. */
    method Allocate() returns (node: Option<string>)
      modifies this`nodes
      ensures node.None? <==> old(nodes) == map[]
      ensures node.None? ==> nodes == old(nodes)
      ensures node.Some? ==> node.value in old(nodes) && nodes == old(nodes)[node.value := old(nodes)[node.value] + 1]
    {
      var min: nat := 0;
      node := None;
      var todo := nodes.Keys;
      while todo != {}
        invariant todo <= nodes.Keys
        invariant node.None? ==> todo == nodes.Keys && min == 0
        invariant node.Some? ==> node.value in nodes
      {
        var name :| name in todo;
        if min == 0 || min > nodes[name] {
          min := nodes[name];
          node := Some(name);
        }
        todo := todo - {name};
      }
      if node.Some? {
        nodes := nodes[node.value := nodes[node.value] + 1];
      }
    }

    /** Releasing the node that was allocated restores every count. */
    method AllocateThenRelease() returns (node: Option<string>)
      modifies this`nodes
      ensures nodes == old(nodes) && (node.None? <==> nodes == map[])
    {
      node := Allocate();
      if node.Some? {
        Release(node.value);
      }
    }

    /** Others delete objects at any time. */
    method Interfere(names: set<string>)
      requires book.gone <= book.objects.Keys
      modifies this`book
      ensures OnlyVanished(old(book), book) && book.gone == old(book).gone + names * Live(old(book))
    {
      var ns := names * Live(book);
      book := book.(gone := book.gone + ns);
    }

    method ClientDelete(world: World, n: string) returns (reply: Reply)
      requires book.gone <= book.objects.Keys
      modifies this`book
      ensures OnlyVanished(old(book), book) && OnlyOthers(world, old(book), book, {n})
      ensures reply == Failed <==> world.deleteFails(n)
      ensures reply != Failed ==> n !in Live(book)
    {
      Interfere(world.others(n));
      if world.deleteFails(n) {
        return Failed;
      }
      if n !in Live(book) {
        return NotFound;
      }
      book := book.(gone := book.gone + {n});
      return Deleted;
    }

    /** The claim's objects by pod. */
    method ListByPod() returns (fiOnPods: map<PodID, string>)
      requires OnePerPod(book)
      ensures fiOnPods.Values == Live(book)
      ensures forall id | id in fiOnPods :: fiOnPods[id] in Live(book) && book.objects[fiOnPods[id]].pod == id
    {
      fiOnPods := map[];
      var todo := Live(book);
      while todo != {}
        invariant todo <= Live(book)
        invariant forall id | id in fiOnPods :: fiOnPods[id] in Live(book) - todo && book.objects[fiOnPods[id]].pod == id
        invariant forall n | n in Live(book) - todo :: book.objects[n].pod in fiOnPods && fiOnPods[book.objects[n].pod] == n
      {
        var n :| n in todo;
        fiOnPods := fiOnPods[book.objects[n].pod := n];
        todo := todo - {n};
      }
    }

    method AdoptOrDeleteOne(world: World, n: string, ghost done: set<string>, ghost pods: set<PodID>)
        returns (adopted: bool, reply: Reply)
      requires OnePerPod(book) && Adopting(pool, book, done) && n in book.objects && n !in done && Covers(book, pods)
      modifies this`book
      ensures OnlyVanished(old(book), book.(used := old(book.used)))
      ensures OnePerPod(book) && Adopting(pool, book, if reply == Failed then done else done + {n}) && Covers(book, pods)
      ensures !adopted && reply != Failed ==> n !in Live(book)
      ensures OnlyOthers(world, old(book), book, if adopted then {} else {n})
      ensures Distinct(pool, book.objects) ==> (adopted <==> InPool(pool, book.objects[n]))
      ensures Distinct(pool, book.objects) ==> (reply == Failed <==> Blocks(pool, book.objects, world.deleteFails, n))
    {
      AdoptOne(pool, book, done, n);
      if InPool(pool, book.objects[n]) && book.objects[n].address.value !in book.used {
        book := book.(used := book.used + {book.objects[n].address.value});
        return true, Deleted;
      }
      ghost var was := book;
      reply := ClientDelete(world, n);
      VanishedKeeps(pool, was, book, done, pods);
      AdoptOne(pool, book, done, n);
      adopted := false;
    }

    /** The pass over the existing objects when nothing is used: adopt those with a pool address, delete the others.
        It is the pass over the live objects in some order; at an early exit some may be left out. */
    method AdoptOrDelete(world: World, fiOnPods: map<PodID, string>)
        returns (r: Result, kept: set<PodID>, ghost done: set<string>, ghost order: seq<string>)
      requires OnePerPod(book) && Adopting(pool, book, {})
      requires fiOnPods.Values == Live(book)
      requires forall id | id in fiOnPods :: fiOnPods[id] in Live(book) && book.objects[fiOnPods[id]].pod == id
      modifies this`book
      ensures Adopting(pool, book, done) && OnePerPod(book)
      ensures OnlyVanished(old(book), book.(used := old(book.used)))
      ensures r == Done ==> done == Live(old(book)) && Covers(book, kept)
      ensures Distinct(pool, book.objects) ==>
                Orders(order, Live(old(book))) && done == Reached(pool, book.objects, world.deleteFails, order)
      ensures AllStay(world, book, fiOnPods, kept)
      ensures r == Done && Distinct(pool, book.objects) ==>
                Adoptable(pool, book.objects, fiOnPods, {}, kept)
    {
      done, kept := {}, {};
      ghost var seen: seq<string> := [];
      var todo := fiOnPods.Keys;
      ghost var b := book;
      assert kept + todo == fiOnPods.Keys && Names(fiOnPods, {}) == {} && fiOnPods.Keys - todo == {};
      while todo != {}
        invariant Passing(world, pool, b, book, fiOnPods, todo, kept, done, seen)
      {
        var id :| id in todo;
        ghost var was := book;
        NamesMore(fiOnPods, fiOnPods.Keys - todo, id, b.objects);
        var adopted, reply := AdoptOrDeleteOne(world, fiOnPods[id], done, kept + todo);
        if reply == Failed {
          AllStayOn(world, was, book, fiOnPods, kept, {fiOnPods[id]});
          order := StoppedOrder(pool, Live(b), b.objects, world.deleteFails, done, seen, fiOnPods[id]);
          return DeleteFailed, kept, done, order;
        }
        PassingOn(world, pool, b, was, book, fiOnPods, todo, kept, done, seen, id, adopted);
        done, seen := done + {fiOnPods[id]}, seen + [fiOnPods[id]];
        if adopted {
          kept := kept + {id};
        }
        todo := todo - {id};
      }
      assert Names(fiOnPods, fiOnPods.Keys) == fiOnPods.Values;
      assert fiOnPods.Keys - {} == fiOnPods.Keys && kept + {} == kept;
      ReachedWithin(pool, b.objects, world.deleteFails, seen);
      r, order := Done, seen;
    }

    /** The pass when addresses are in use: delete objects of pods that are gone and of nodes that left. */
    method DeleteStale(world: World, fiOnPods: map<PodID, string>, pods: set<PodID>) returns (r: Result, kept: set<PodID>)
      requires OnePerPod(book)
      requires fiOnPods.Values == Live(book)
      requires forall id | id in fiOnPods :: fiOnPods[id] in Live(book) && book.objects[fiOnPods[id]].pod == id
      modifies this`book
      ensures OnlyVanished(old(book), book)
      ensures r == Done ==> Covers(book, kept)
      ensures r == Done ==> forall n | n in Live(book) ::
                book.objects[n].pod in pods && (book.objects[n].node != "" ==> book.objects[n].node in nodes)
      ensures AllStay(world, book, fiOnPods, kept)
      ensures forall id :: id in kept <==>
                && id in fiOnPods && id in pods
                && (book.objects[fiOnPods[id]].node != "" ==> book.objects[fiOnPods[id]].node in nodes)
    {
      kept := set id | id in fiOnPods && id in pods
                       && (book.objects[fiOnPods[id]].node != "" ==> book.objects[fiOnPods[id]].node in nodes);
      var stale := fiOnPods.Keys - kept;
      var todo := stale;
      while todo != {}
        invariant todo <= stale && OnlyVanished(old(book), book)
        invariant forall id | id in stale && id !in todo :: fiOnPods[id] !in Live(book)
        invariant AllStay(world, book, fiOnPods, kept)
      {
        var id :| id in todo;
        ghost var was := book;
        var reply := ClientDelete(world, fiOnPods[id]);
        AllStayOn(world, was, book, fiOnPods, kept, {fiOnPods[id]});
        if reply == Failed {
          return DeleteFailed, kept;
        }
        todo := todo - {id};
      }
      r := Done;
      forall n | n in Live(book)
        ensures book.objects[n].pod in kept
      {
        assert n in fiOnPods.Values;
        var id :| id in fiOnPods && fiOnPods[id] == n;
      }
    }

    /** AllocateNext. */
    method TakeNext(ghost b: Book) returns (ip: Option<IP>)
      requires Kept(pool, b, book)
      modifies this`book
      ensures Kept(pool, b, book)
      ensures ip.None? <==> pool <= old(book).used
      ensures ip.None? ==> book == old(book)
      ensures ip.Some? ==> ip.value in pool - old(book).used
      ensures ip.Some? ==> book == old(book).(used := old(book).used + {ip.value}, held := old(book).held + {ip.value})
    {
      var free := pool - book.used;
      if free == {} {
        assert forall a | a in pool :: a !in free ==> a in book.used;
        return None;
      }
      var a :| a in free;
      KeptByTake(pool, b, book, a);
      book := book.(used := book.used + {a}, held := book.held + {a});
      return Some(a);
    }

    /** CreateFloatingIP with the address and the node that were taken. */
    method ClientCreate(world: World, pod: Pod, ip: IP, node: string, ghost b: Book) returns (ok: bool)
      requires Kept(pool, b, book) && Wanting(world, book, pod.id) && ip in book.held && ip in pool && node in nodes
      modifies this`book
      ensures Kept(pool, b, book)
      ensures Extends(world, pod.id, old(book), book)
      ensures ok <==> !world.createFails(pod.id)
      ensures ok <==> world.names(pod.id) in book.objects
      ensures ok ==> book.objects[world.names(pod.id)] == FloatingIP(pod.id, Some(ip), node)
      ensures HasNew(world, pool, nodes.Keys, book, pod.id) <==> ok
      ensures book.held == if ok then old(book).held - {ip} else old(book).held
      ensures book.used == old(book).used
    {
      ghost var was := book;
      Interfere(world.others(world.names(pod.id)));
      KeptByVanish(pool, b, was, book);
      if world.createFails(pod.id) {
        return false;
      }
      var f := FloatingIP(pod.id, Some(ip), node);
      KeptByCreate(pool, b, book, world.names(pod.id), f);
      book := book.(objects := book.objects[world.names(pod.id) := f], held := book.held - {ip});
      ok := true;
    }

    /** Allocate, remembered for the release at the end. */
    method HoldNode() returns (node: Option<string>)
      modifies this`nodes, this`heldNodes
      ensures node.None? <==> old(nodes) == map[]
      ensures node.None? ==> nodes == old(nodes) && heldNodes == old(heldNodes)
      ensures node.Some? ==> node.value in nodes && heldNodes == old(heldNodes) + multiset{node.value}
      ensures nodes.Keys == old(nodes).Keys
      ensures forall n | n in nodes :: nodes[n] + old(heldNodes)[n] == old(nodes)[n] + heldNodes[n]
    {
      node := Allocate();
      if node.Some? {
        heldNodes := heldNodes + multiset{node.value};
      }
    }

    /** An address, and a node if there was one. */
    method TakeBoth(ghost b: Book) returns (ip: Option<IP>, node: Option<string>)
      requires Kept(pool, b, book)
      modifies this`book, this`nodes, this`heldNodes
      ensures Kept(pool, b, book)
      ensures ip.None? <==> pool <= old(book).used
      ensures book == if ip.None? then old(book)
                      else old(book).(used := old(book).used + {ip.value}, held := old(book).held + {ip.value})
      ensures ip.Some? ==> ip.value in pool && ip.value !in old(book).used
      ensures ip.Some? ==> (node.None? <==> old(nodes) == map[])
      ensures node.Some? ==> node.value in nodes && node.value in heldNodes
      ensures nodes.Keys == old(nodes).Keys
      ensures forall n | n in nodes :: nodes[n] + old(heldNodes)[n] == old(nodes)[n] + heldNodes[n]
    {
      ip := TakeNext(b);
      node := None;
      if ip.Some? {
        node := HoldNode();
      }
    }

    /** One pod: true means the loop stops. What is taken and not given to an object stays held; at most one address is. */
    method CreateOne(world: World, pod: Pod, ghost b: Book) returns (stop: bool, ghost left: set<IP>)
      requires Kept(pool, b, book) && Wanting(world, book, pod.id)
      modifies this`book, this`nodes, this`heldNodes
      ensures Kept(pool, b, book)
      ensures Extends(world, pod.id, old(book), book)
      ensures Grown(old(nodes), nodes, old(heldNodes), heldNodes, old(book), book)
      ensures stop <==> pool <= old(book).used || nodes == map[]
      ensures stop ==> pool <= book.used || nodes == map[]
      ensures !stop ==> (HasNew(world, pool, nodes.Keys, book, pod.id) <==> !Refused(world, pod))
      ensures book.held <= old(book).held + left && |left| <= 1 && (left != {} ==> Refused(world, pod) || nodes == map[])
    {
      ghost var was, base, held := book, nodes, heldNodes;
      var ip, node := TakeBoth(b);
      left := if ip.Some? then {ip.value} else {};
      if ip.None? || node.None? || !pod.hasIPs {
        GrownByNone(base, nodes, held, heldNodes, was, book);
        stop := ip.None? || node.None?;
        return;
      }
      ghost var taken := book;
      var ok := ClientCreate(world, pod, ip.value, node.value, b);
      ExtendsTaken(world, pod.id, was, taken, book);
      GrownByOne(base, nodes, held, heldNodes, was, book, world.names(pod.id), node.value);
      if ok {
        heldNodes := heldNodes - multiset{node.value};
        left := {};
      }
      stop := false;
    }

    /** The loop over the pods without an object. Each gets one, with a pool address and a known node, unless it has no
        addresses, the API refuses, there are no nodes, or the pool is used up; at most one address is held back for
        each pod refused. */
    method CreateMissing(world: World, pods: map<PodID, Pod>, kept: set<PodID>)
      requires book.gone <= book.objects.Keys && book.held == {} && Covers(book, kept)
      requires forall id | id in pods :: pods[id].id == id && world.names(id) !in book.objects
      requires forall i, k | i in pods && k in pods && i != k :: world.names(i) != world.names(k)
      modifies this`book, this`nodes, this`heldNodes
      ensures Kept(pool, old(book), book) && OnlyOthers(world, old(book), book, {})
      ensures Grown(old(nodes), nodes, old(heldNodes), heldNodes, old(book), book)
      ensures forall id | id in pods && id !in kept ::
                HasNew(world, pool, nodes.Keys, book, id) || Refused(world, pods[id]) || nodes == map[] || pool <= book.used
      ensures |book.held| <= |RefusedAmong(world, pods, pods.Keys - kept)| + (if nodes == map[] then 1 else 0)
    {
      ghost var ids := pods.Keys - kept;
      var todo := pods.Keys - kept;
      ghost var b, n0, h0 := book, nodes, heldNodes;
      CreatingAtStart(world, pool, pods, b, ids, n0, h0);
      while todo != {}
        invariant todo <= ids && nodes.Keys == n0.Keys
        invariant Creating(world, pool, pods, b, book, ids, todo, n0, nodes, h0, heldNodes)
      {
        var id :| id in todo;
        ghost var was, n1, h1 := book, nodes, heldNodes;
        var stop;
        ghost var left;
        stop, left := CreateOne(world, pods[id], b);
        CreatingOn(world, pool, pods, b, was, book, ids, todo, id, n0, n1, nodes, h0, h1, heldNodes, stop, left);
        if stop {
          return;
        }
        todo := todo - {id};
      }
      assert ids - {} == ids;
    }

    /** The deferred releases. */
    method Unwind()
      requires book.gone <= book.objects.Keys
      requires forall n | n in nodes :: heldNodes[n] <= nodes[n]
      modifies this`book, this`nodes, this`heldNodes
      ensures book == old(book).(used := old(book).used - old(book).held, held := {})
      ensures heldNodes == multiset{} && nodes.Keys == old(nodes).Keys
      ensures forall n | n in nodes :: nodes[n] == old(nodes)[n] - old(heldNodes)[n]
    {
      while heldNodes != multiset{}
        invariant book == old(book)
        invariant nodes.Keys == old(nodes).Keys
        invariant forall n | n in nodes :: heldNodes[n] <= nodes[n] && nodes[n] - heldNodes[n] == old(nodes)[n] - old(heldNodes)[n]
        decreases |heldNodes|
      {
        var n :| n in heldNodes;
        Release(n);
        heldNodes := heldNodes - multiset{n};
      }
      while book.held != {}
        invariant heldNodes == multiset{} && nodes.Keys == old(nodes).Keys
        invariant forall n | n in nodes :: nodes[n] == old(nodes)[n] - old(heldNodes)[n]
        invariant book == old(book).(used := book.used, held := book.held)
        invariant book.held <= old(book).held && book.used == old(book).used - (old(book).held - book.held)
        decreases book.held
      {
        var a :| a in book.held;
        book := book.(used := book.used - {a}, held := book.held - {a});
      }
    }

    /** The pass over the existing objects. */
    method CleanUp(world: World, pods: set<PodID>) returns (r: Result, kept: set<PodID>)
      requires OnePerPod(book) && book.held == {} && Owned(pool, book)
      modifies this`book
      ensures OnePerPod(book) && OnlyVanished(old(book), book.(used := old(book.used))) && Owned(pool, book)
      ensures Exact(pool, old(book)) ==> Exact(pool, book)
      ensures Fresh(pool, old(book)) && (r == Done || Harmless(pool, old(book), world.deleteFails)) ==> Exact(pool, book)
      ensures old(book).used != {} ==> book.used == old(book).used
      ensures r == Done ==> Covers(book, kept)
      ensures r == Done ==> forall id | id in kept :: HasOld(world, old(book), book, id)
      ensures r == Done ==> forall n | n in Live(old(book)) && Keepable(pool, old(book), nodes.Keys, pods, n) :: Stays(world, book, n)
    {
      ghost var was := book;
      var fiOnPods := ListByPod();
      if book.used == {} {
        ghost var done, order;
        r, kept, done, order := AdoptOrDelete(world, fiOnPods);
        AdoptedOwned(pool, book, done);
        AdoptionEnds(pool, was, book, world.deleteFails, done, order, r == Done);
      } else {
        r, kept := DeleteStale(world, fiOnPods, pods);
        VanishedKeeps(pool, was, book, {}, {});
      }
      CleanUpKeeps(world, was, book, fiOnPods, kept);
      if r == Done {
        forall n | n in Live(was) && Keepable(pool, was, nodes.Keys, pods, n)
          ensures Stays(world, book, n)
        {
          assert n in fiOnPods.Values;
          var id :| id in fiOnPods && fiOnPods[id] == n;
          assert id in kept;
        }
      }
    }

    /** The rest of a sync: objects for the pods that have none, and what was taken in vain is given back. */
    method FillUp(world: World, pods: map<PodID, Pod>, kept: set<PodID>) returns (ghost wasted: set<IP>)
      requires book.gone <= book.objects.Keys && book.held == {} && heldNodes == multiset{} && Covers(book, kept)
      requires forall id | id in pods :: pods[id].id == id && world.names(id) !in book.objects
      requires forall i, k | i in pods && k in pods && i != k :: world.names(i) != world.names(k)
      modifies this`book, this`nodes, this`heldNodes
      ensures Kept(pool, old(book), book) && OnlyOthers(world, old(book), book, {}) && book.held == {} && heldNodes == multiset{}
      ensures Grown(old(nodes), nodes, multiset{}, multiset{}, old(book), book)
      ensures forall id | id in pods && id !in kept ::
                || HasNew(world, pool, nodes.Keys, book, id) || Refused(world, pods[id])
                || nodes.Keys == {} || pool <= book.used + wasted
      ensures |wasted| <= |RefusedAmong(world, pods, pods.Keys - kept)| + (if nodes.Keys == {} then 1 else 0)
    {
      ghost var b := book;
      CreateMissing(world, pods, kept);
      ghost var grown := book;
      wasted := book.held;
      Unwind();
      KeptUnwound(pool, b, grown, book);
      assert forall n :: NewOn(b, book, n) == NewOn(b, grown, n);
      assert pool <= grown.used ==> pool <= book.used + wasted;
    }

    /** One sync of the claim, from any book without lost addresses. Whatever its exit, it gives back the addresses and
        the node counts that it took and made no object for, and loses none. An exact book stays exact; a fresh
        suballocator's becomes exact unless a failed deletion leaves a pool address out; a book with addresses in use
        that is not exact, as after such an exit, is not repaired. Without a failed deletion, objects worth keeping are
        not deleted, and each selected pod ends with an object, unless it has no addresses, the API refuses, there are
        no nodes, or the pool is used up, up to one address wasted for each pod refused. */
    method Sync(world: World, pods: map<PodID, Pod>) returns (r: Result, ghost wasted: set<IP>)
      requires OnePerPod(book) && book.held == {} && heldNodes == multiset{} && Owned(pool, book)
      requires forall id | id in pods :: pods[id].id == id && world.names(id) !in book.objects
      requires forall i, k | i in pods && k in pods && i != k :: world.names(i) != world.names(k)
      modifies this`book, this`nodes, this`heldNodes
      ensures OnePerPod(book) && book.held == {} && heldNodes == multiset{} && Owned(pool, book) && Keeps(old(book), book)
      ensures Exact(pool, old(book)) ==> Exact(pool, book)
      ensures Fresh(pool, old(book)) && (r == Done || Harmless(pool, old(book), world.deleteFails)) ==> Exact(pool, book)
      ensures old(book).used != {} ==> (Exact(pool, book) <==> Exact(pool, old(book)))
      ensures Grown(old(nodes), nodes, multiset{}, multiset{}, old(book), book)
      ensures r == Done ==> forall id | id in pods ::
                || HasOld(world, old(book), book, id) || HasNew(world, pool, nodes.Keys, book, id)
                || Refused(world, pods[id]) || nodes.Keys == {} || pool <= book.used + wasted
      ensures |wasted| <= |RefusedAmong(world, pods, pods.Keys)| + (if nodes.Keys == {} then 1 else 0)
      ensures r == Done ==> forall n | n in Live(old(book)) && Keepable(pool, old(book), nodes.Keys, pods.Keys, n) ::
                Stays(world, book, n)
    {
      ghost var b, n0 := book, nodes;
      var kept;
      wasted := {};
      r, kept := CleanUp(world, pods.Keys);
      ghost var cleaned := book;
      if b.used != {} {
        SameButVanished(pool, b, cleaned);
      }
      if r == DeleteFailed {
        assert forall n :: NewOn(b, cleaned, n) == {};
        return;
      }
      wasted := FillUp(world, pods, kept);
      NeverRepaired(pool, cleaned, book);
      SyncEnds(world, b, cleaned, book, kept, n0, nodes);
      SubsetCount(RefusedAmong(world, pods, pods.Keys - kept), RefusedAmong(world, pods, pods.Keys));
    }
  }

  /** An object the sync has no reason to delete: one with a pool address when none is in use, and else one of a selected
      pod on a known node. */
  ghost predicate Keepable(pool: set<IP>, b: Book, nodes: set<string>, pods: set<PodID>, n: string) {
    n in b.objects && if b.used == {} then Distinct(pool, b.objects) && InPool(pool, b.objects[n])
                      else b.objects[n].pod in pods && (b.objects[n].node != "" ==> b.objects[n].node in nodes)
  }

  lemma {:induction false} CleanUpKeeps(world: World, b: Book, t: Book, byPod: map<PodID, string>, kept: set<PodID>)
    requires AllStay(world, t, byPod, kept)
    requires forall id | id in byPod :: byPod[id] in Live(b) && b.objects[byPod[id]].pod == id
    ensures forall id | id in kept :: HasOld(world, b, t, id)
  {
    forall id | id in kept
      ensures HasOld(world, b, t, id)
    {
      assert byPod[id] in Live(b) && Stays(world, t, byPod[id]);
    }
  }

  /** From the cleaned book on, old objects stay and only new ones are counted. */
  lemma {:induction false} SyncEnds(world: World, b: Book, cleaned: Book, t: Book, kept: set<PodID>, n0: map<string, nat>, n1: map<string, nat>)
    requires cleaned.objects == b.objects && b.gone <= cleaned.gone && Keeps(cleaned, t) && OnlyOthers(world, cleaned, t, {})
    requires Grown(n0, n1, multiset{}, multiset{}, cleaned, t) && forall id | id in kept :: HasOld(world, b, cleaned, id)
    ensures Keeps(b, t) && Grown(n0, n1, multiset{}, multiset{}, b, t) && forall id | id in kept :: HasOld(world, b, t, id)
    ensures forall n | Stays(world, cleaned, n) :: Stays(world, t, n)
  {
    assert forall n :: NewOn(b, t, n) == NewOn(cleaned, t, n);
    forall id | id in kept
      ensures HasOld(world, b, t, id)
    {
      var n :| n in Live(b) && n in b.objects && b.objects[n].pod == id && Stays(world, cleaned, n);
      assert Stays(world, t, n);
    }
  }

  lemma {:induction false} SameButVanished(pool: set<IP>, b: Book, t: Book)
    requires OnlyVanished(b, t)
    ensures Exact(pool, t) <==> Exact(pool, b)
  {
  }

  lemma {:induction false} AdoptedOwned(pool: set<IP>, b: Book, done: set<string>)
    requires Adopting(pool, b, done)
    ensures Owned(pool, b)
  {
  }

  lemma {:induction false} AdoptionEnds(pool: set<IP>, b: Book, t: Book, fails: string -> bool, done: set<string>,
                                        order: seq<string>, complete: bool)
    requires b.used == {} && b.held == {} && b.gone <= b.objects.Keys
    requires OnlyVanished(b, t.(used := b.used)) && Adopting(pool, t, done)
    requires complete ==> done == Live(b)
    requires Distinct(pool, b.objects) ==> Orders(order, Live(b)) && done == Reached(pool, b.objects, fails, order)
    ensures Exact(pool, b) ==> Exact(pool, t)
    ensures Fresh(pool, b) && (complete || Harmless(pool, b, fails)) ==> Exact(pool, t)
  {
    AdoptionExactIff(pool, t, done);
    if Exact(pool, b) {
      assert Addresses(pool, t.objects, t.objects.Keys - done) <= Addresses(pool, b.objects, b.objects.Keys);
    }
    if Fresh(pool, b) {
      if complete {
        assert Addresses(pool, t.objects, t.objects.Keys - done) <= Addresses(pool, b.objects, b.gone);
      } else if Harmless(pool, b, fails) {
        HarmlessPass(pool, b, fails, order);
        var u := AfterPass(pool, b, fails, order);
        assert t == u.(gone := t.gone);
      }
    }
  }
}
