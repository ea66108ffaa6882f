/** The dependency-injection container of the interfaces exercise. A container
    keeps three tables keyed by type name: the registered constructors, the
    names marked as singletons, and the instances cached for singletons.
    `Resolve` either builds a new instance, returns the cached one, or fails.

    A constructor is a tag: a `func() interface{}`, which builds an instance of
    its type each time it is called, or any other value, which the container
    refuses. Each built instance is a newly allocated object, so the test's
    pointer comparisons become object identity. */
module DIContainers {

  class Instance {
    const typeName: string

    constructor (typeName: string)
      ensures this.typeName == typeName
    {
      this.typeName := typeName;
    }
  }

  datatype Constructor = Factory(typeName: string) | NotAFactory

  datatype ErrorKind = NoError | UnregisteredType | InvalidConstructor

  /** What a resolution gives back: an instance, or the error with a nil instance. */
  datatype Resolved = Found(inst: Instance) | Failed(err: ErrorKind)

  /** The three tables of a container. */
  datatype State = State(
    constructors: map<string, Constructor>,
    singletons: set<string>,
    instances: map<string, Instance>)

  const Empty := State(map[], {}, map[])

  /** Every cached instance belongs to a singleton, and every singleton has a
      constructor. */
  predicate Valid(st: State)
  {
    st.instances.Keys <= st.singletons && st.singletons <= st.constructors.Keys
  }

  function AfterRegister(st: State, name: string, c: Constructor): State
  {
    st.(constructors := st.constructors[name := c])
  }

  function AfterRegisterSingleton(st: State, name: string, c: Constructor): State
  {
    var st' := AfterRegister(st, name, c);
    st'.(singletons := st'.singletons + {name})
  }

  /** `build`: `made` is the object the constructor allocates if it is called. */
  function BuildOutcome(st: State, name: string, made: Instance): Resolved
  {
    if name !in st.constructors then Failed(UnregisteredType)
    else if st.constructors[name].NotAFactory? then Failed(InvalidConstructor)
    else Found(made)
  }

  /** `Resolve`: the tables afterwards and the outcome. */
  function ResolveOutcome(st: State, name: string, made: Instance): (State, Resolved)
  {
    if name !in st.singletons then (st, BuildOutcome(st, name, made))
    else if name in st.instances then (st, Found(st.instances[name]))
    else
      match BuildOutcome(st, name, made)
      case Failed(e) => (st, Failed(e))
      case Found(i) => (st.(instances := st.instances[name := i]), Found(i))
  }

  /** The error a resolve fails with, or NoError when it succeeds. */
  function FailureOf(st: State, name: string): ErrorKind
  {
    if name in st.singletons && name in st.instances then NoError
    else if name !in st.constructors then UnregisteredType
    else if st.constructors[name].NotAFactory? then InvalidConstructor
    else NoError
  }

  /** Whether a resolve succeeds does not depend on the object the factory
      would make, and FailureOf names the error exactly when it fails. */
  lemma FailureOfAgrees(st: State, name: string, made: Instance)
    ensures ResolveOutcome(st, name, made).1.Failed? <==> FailureOf(st, name) != NoError
    ensures ResolveOutcome(st, name, made).1.Failed? ==>
      ResolveOutcome(st, name, made).1.err == FailureOf(st, name)
  {
  }

  lemma RegisterKeepsValid(st: State, name: string, c: Constructor)
    requires Valid(st)
    ensures Valid(AfterRegister(st, name, c)) && Valid(AfterRegisterSingleton(st, name, c))
  {
  }

  lemma ResolveKeepsValid(st: State, name: string, made: Instance)
    requires Valid(st)
    ensures Valid(ResolveOutcome(st, name, made).0)
  {
  }

  /** A name with no constructor fails with errUnregisteredType and changes nothing. */
  lemma ResolveUnregistered(st: State, name: string, made: Instance)
    requires Valid(st) && name !in st.constructors
    ensures ResolveOutcome(st, name, made) == (st, Failed(UnregisteredType))
  {
  }

  /** A constructor that is not a factory fails with errInvalidConstructor
      unless a singleton instance is already cached. */
  lemma ResolveInvalid(st: State, name: string, made: Instance)
    requires name in st.constructors && st.constructors[name].NotAFactory?
    requires name !in st.instances
    ensures ResolveOutcome(st, name, made) == (st, Failed(InvalidConstructor))
  {
  }

  /** A plain type is built afresh on every resolve and nothing is cached. */
  lemma ResolveTransient(st: State, name: string, made: Instance)
    requires name in st.constructors && st.constructors[name].Factory?
    requires name !in st.singletons
    ensures ResolveOutcome(st, name, made) == (st, Found(made))
  {
  }

  /** Two resolves of a plain type give the two objects its constructor made. */
  lemma TransientDistinct(st: State, name: string, made1: Instance, made2: Instance)
    requires name in st.constructors && st.constructors[name].Factory?
    requires name !in st.singletons && made1 != made2
    ensures var (st1, r1) := ResolveOutcome(st, name, made1);
      var (st2, r2) := ResolveOutcome(st1, name, made2);
      r1.Found? && r2.Found? && r1.inst != r2.inst && st2 == st
  {
    ResolveTransient(st, name, made1);
    ResolveTransient(st, name, made2);
  }

  /** The first resolve of a singleton caches what it built; every later
      resolve returns that same object and builds nothing. */
  lemma SingletonCached(st: State, name: string, made1: Instance, made2: Instance)
    requires name in st.constructors && st.constructors[name].Factory?
    requires name in st.singletons && name !in st.instances
    ensures var (st1, r1) := ResolveOutcome(st, name, made1);
      r1 == Found(made1) && st1 == st.(instances := st.instances[name := made1])
      && ResolveOutcome(st1, name, made2) == (st1, Found(made1))
  {
  }

  /** A failed resolve caches nothing; a successful one changes at most the
      name's own cache entry, and only for a singleton. */
  lemma ResolveFrame(st: State, name: string, made: Instance)
    ensures var (st1, r) := ResolveOutcome(st, name, made);
      st1.constructors == st.constructors && st1.singletons == st.singletons
      && (r.Failed? ==> st1 == st)
      && (name !in st.singletons ==> st1 == st)
      && (forall n :: n in st.instances ==> n in st1.instances && st1.instances[n] == st.instances[n])
      && (forall n :: n in st1.instances && n !in st.instances ==> n == name)
  {
  }

  /** Registering again replaces the constructor only: the singleton mark and a
      cached instance survive, so the cached object is still what resolves. */
  lemma RegisterKeepsCache(st: State, name: string, c: Constructor, made: Instance)
    requires name in st.singletons && name in st.instances
    ensures AfterRegister(st, name, c).singletons == st.singletons
    ensures AfterRegister(st, name, c).instances == st.instances
    ensures AfterRegister(st, name, c).constructors[name] == c
    ensures ResolveOutcome(AfterRegister(st, name, c), name, made).1 == Found(st.instances[name])
  {
  }

  class Container {
    var constructors: map<string, Constructor>
    var singletons: set<string>
    var instances: map<string, Instance>

    function Snapshot(): State
      reads this
    {
      State(constructors, singletons, instances)
    }

    /** `NewContainer`: three empty tables. */
    constructor ()
      ensures Snapshot() == Empty
    {
      constructors := map[];
      singletons := {};
      instances := map[];
    }

    method RegisterType(name: string, c: Constructor)
      modifies this
      ensures Snapshot() == AfterRegister(old(Snapshot()), name, c)
    {
      constructors := constructors[name := c];
    }

    method RegisterSingletonType(name: string, c: Constructor)
      modifies this
      ensures Snapshot() == AfterRegisterSingleton(old(Snapshot()), name, c)
    {
      RegisterType(name, c);
      singletons := singletons + {name};
    }

    /** `build`: calls a factory, which allocates a new object. */
    method BuildInstance(name: string) returns (inst: Instance?, err: ErrorKind)
      ensures err == NoError ==>
        inst != null && fresh(inst) && BuildOutcome(Snapshot(), name, inst) == Found(inst)
      ensures err != NoError ==> inst == null
      ensures err == (if name !in constructors then UnregisteredType
        else if constructors[name].NotAFactory? then InvalidConstructor else NoError)
    {
      if name !in constructors {
        return null, UnregisteredType;
      }
      match constructors[name]
      case NotAFactory =>
        return null, InvalidConstructor;
      case Factory(t) =>
        inst := new Instance(t);
        err := NoError;
    }

    /** `Resolve`: the tables and the outcome follow ResolveOutcome,
        with the returned object standing for the one the factory allocates. */
    method Resolve(name: string) returns (inst: Instance?, err: ErrorKind)
      modifies this
      ensures inst == null <==> err != NoError
      ensures inst != null ==>
        (Snapshot(), Found(inst)) == ResolveOutcome(old(Snapshot()), name, inst)
      ensures err == FailureOf(old(Snapshot()), name)
      ensures inst == null ==> Snapshot() == old(Snapshot())
      ensures inst != null && inst !in old(instances.Values) ==> fresh(inst)
    {
      if name !in singletons {
        inst, err := BuildInstance(name);
        if inst != null {
          assert (Snapshot(), Found(inst)) == ResolveOutcome(old(Snapshot()), name, inst);
        }
        return;
      }
      if name in instances {
        inst := instances[name];
        err := NoError;
        assert (Snapshot(), Found(inst)) == ResolveOutcome(old(Snapshot()), name, inst);
        return;
      }
      inst, err := BuildInstance(name);
      if err != NoError {
        return null, err;
      }
      instances := instances[name := inst];
      assert (Snapshot(), Found(inst)) == ResolveOutcome(old(Snapshot()), name, inst);
    }
  }

  /** The test's run: two plain user services are distinct objects, the message
      service resolves, an unregistered payment service fails, and once it is
      registered as a singleton both resolves give the same object. */
  method ContainerScenario() returns (usersDistinct: bool, messageFound: bool,
    paymentError: ErrorKind, paymentsSame: bool)
    ensures usersDistinct && messageFound && paymentError == UnregisteredType && paymentsSame
  {
    var c := new Container();
    c.RegisterType("UserService", Factory("UserService"));
    c.RegisterType("MessageService", Factory("MessageService"));
    var u1, e1 := c.Resolve("UserService");
    var u2, e2 := c.Resolve("UserService");
    usersDistinct := u1 != null && u2 != null && u1 != u2;
    var m, e3 := c.Resolve("MessageService");
    messageFound := m != null;
    var p, e4 := c.Resolve("PaymentService");
    paymentError := e4;
    c.RegisterSingletonType("PaymentService", Factory("PaymentService"));
    var p1, e5 := c.Resolve("PaymentService");
    var p2, e6 := c.Resolve("PaymentService");
    paymentsSame := p1 != null && p1 == p2;
  }
}
