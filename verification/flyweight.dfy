/**
 * The Flyweight example: car models are shared by name.  `CarModel.__new__`
 * looks the name up in a class-level cache and hands back the instance already
 * there, or allocates one and caches it; `__init__` sets the feature flags only
 * the first time an instance is initialised.  Cars keep a reference to their
 * shared model next to their own colour and serial number.
 */
module Flyweight {

  /** The six feature flags of a car model, each `False` unless given. */
  datatype Features = Features(
    air: bool, tilt: bool, cruiseControl: bool, powerLocks: bool, alloyWheels: bool, usbCharger: bool)

  /** The keyword defaults of `CarModel.__init__`. */
  const Defaults := Features(false, false, false, false, false, false)

  /** The cache seen by value: the features of the model cached under each name. */
  type Stock = map<string, Features>

  /**
   * `CarModel(name, **flags)` on the cache seen by value: a cached name gives
   * back its model's features untouched; a new name is cached with the given
   * flags.  The result is the new cache and the features of the model handed back.
   */
  function Construct(stock: Stock, name: string, f: Features): (Stock, Features) {
    if name in stock then (stock, stock[name]) else (stock[name := f], f)
  }

  /**
   * After a construction the name is cached and the model handed back is the
   * cached one; the cache gains that name and no other, and every other entry
   * is what it was.  A name not cached before takes the flags given.
   */
  lemma ConstructCaches(stock: Stock, name: string, f: Features)
    ensures name in Construct(stock, name, f).0
    ensures Construct(stock, name, f).1 == Construct(stock, name, f).0[name]
    ensures Construct(stock, name, f).0.Keys == stock.Keys + {name}
    ensures forall n :: n in stock && n != name ==> Construct(stock, name, f).0[n] == stock[n]
    ensures name !in stock ==> Construct(stock, name, f).1 == f
    ensures name in stock ==> Construct(stock, name, f).1 == stock[name]
  {
  }

  /** Constructing again under a name already used changes nothing, whatever the
      flags: the first construction's flags win. */
  lemma FirstFlagsWin(stock: Stock, name: string, f: Features, g: Features)
    ensures Construct(Construct(stock, name, f).0, name, g) == Construct(stock, name, f)
  {
  }

  /** Constructions under different names commute as far as the cache goes. */
  lemma DistinctNamesCommute(stock: Stock, a: string, f: Features, b: string, g: Features)
    requires a != b
    ensures Construct(Construct(stock, a, f).0, b, g).0 == Construct(Construct(stock, b, g).0, a, f).0
  {
  }

  /** `CarModel`: the shared state of all cars of one model. */
  class CarModel {
    var modelName: string
    /** `air`, `tilt`, `cruise_control`, `power_locks`, `alloy_wheels`, `usb_charger` */
    var flags: Features
    /** `hasattr(self, "initted")` */
    var initted: bool

    /** `super().__new__(cls)`: a bare instance, not yet initialised. */
    constructor Allocate()
      ensures !initted
    {
      modelName := "";
      flags := Defaults;
      initted := false;
    }

    /** Initialised, under name `name` and with flags `f`. */
    predicate Holds(name: string, f: Features)
      reads this
    {
      initted && modelName == name && flags == f
    }

    /** `__init__`: sets the name and the flags and marks the instance initialised,
        unless it was already, in which case it changes nothing. */
    method Init(name: string, f: Features)
      modifies this
      ensures old(initted) ==> unchanged(this)
      ensures !old(initted) ==> Holds(name, f)
    {
      if !initted {
        modelName := name;
        flags := f;
        initted := true;
      }
    }
  }

  /** `CarModel._models` with the two halves of constructing a `CarModel`. */
  class ModelCache {
    var models: map<string, CarModel>
    /** The cache seen by value: the flags of the model cached under each name. */
    ghost var stock: Stock
    /** Every instance the cache has allocated. */
    ghost var Repr: set<CarModel>

    /** Every cached model is initialised and carries the name it is cached under, so
        different names hold different instances; `stock` holds their flags. */
    ghost predicate Valid()
      reads this, Repr
    {
      && (forall n :: n in stock <==> n in models)
      && (forall n :: n in models ==> models[n] in Repr && models[n].Holds(n, stock[n]))
    }

    /** An empty cache, as at class creation. */
    constructor ()
      ensures Valid() && models == map[] && stock == map[] && Repr == {}
    {
      models := map[];
      stock := map[];
      Repr := {};
    }

    /** Names held by a valid cache map to distinct instances. */
    lemma DistinctInstances(a: string, b: string)
      requires Valid() && a in models && b in models && a != b
      ensures models[a] != models[b]
    {
    }

    /** `__new__`: the cached instance, or a fresh bare one cached under the name. */
    method New(name: string) returns (m: CarModel)
      modifies this
      ensures stock == old(stock) && Repr == old(Repr)
      ensures name in old(models) ==> m == old(models)[name] && models == old(models)
      ensures name !in old(models) ==> fresh(m) && !m.initted && models == old(models)[name := m]
    {
      if name in models {
        m := models[name];
      } else {
        m := new CarModel.Allocate();
        models := models[name := m];
      }
    }

    /**
     * `CarModel(name, **flags)`: `__new__` and then `__init__`.  The instance
     * handed back is the one cached under the name, the same instance as before
     * if the name was cached; no other entry changes instance, and the cache
     * seen by value moves exactly as `Construct` says.
     */
    method Make(name: string, f: Features) returns (m: CarModel)
      requires Valid()
      modifies this, Repr
      ensures Valid() && fresh(Repr - old(Repr))
      ensures models == old(models)[name := m]
      ensures name in old(models) ==> m == old(models)[name]
      ensures name !in old(models) ==> fresh(m)
      ensures stock == Construct(old(stock), name, f).0
      ensures m.flags == Construct(old(stock), name, f).1
    {
      ghost var old0 := models;
      m := New(name);
      m.Init(name, f);
      stock := Construct(stock, name, f).0;
      Repr := Repr + {m};
      if name in old0 {
        assert models == old0 == old0[name := m] && unchanged(m);
      } else {
        forall n | n in old0
          ensures old0[n].Holds(n, stock[n])
        {
          assert old0[n] in old(Repr);
        }
      }
    }

    /** The weak reference to `name` going away once nothing else holds the instance. */
    method Evict(name: string)
      requires Valid()
      modifies this
      ensures Valid() && Repr == old(Repr)
      ensures models == old(models) - {name}
      ensures stock == old(stock) - {name}
    {
      models := models - {name};
      stock := stock - {name};
    }
  }

  /** `Car`: a colour and a serial number next to a shared model. */
  class Car {
    const model: CarModel
    const color: string
    const serial: string

    constructor (model: CarModel, color: string, serial: string)
      ensures this.model == model && this.color == color && this.serial == serial
    {
      this.model := model;
      this.color := color;
      this.serial := serial;
    }
  }

  /** The flags `FIT LX` is first built with at line 12. */
  const AllFour := Features(true, true, true, true, false, false)

  /**
   * The module's example.  `collected` says whether the collection at line 22
   * removed the unreferenced `FIT LX` model from the cache.  Either way the two
   * later constructions under `FIT LX` give one instance, with `air` still set by
   * the first of them, and the two cars built on `FIT DX` share their model.
   */
  method Example(collected: bool)
    returns (dx: CarModel, car1: Car, car2: Car, lx1: CarModel, lx2: CarModel, lx3: CarModel)
    ensures car1.model == car2.model == dx
    ensures dx.flags == Defaults
    ensures lx2 == lx3 && lx3.flags.air
    ensures !collected ==> lx2 == lx1
    ensures collected ==> lx2 != lx1
  {
    var cache := new ModelCache();
    dx, lx1 := ExampleModels(cache);
    car1 := new Car(dx, "blue", "12345");
    car2 := new Car(dx, "black", "12346");
    var car3 := new Car(lx1, "red", "12347");
    lx2, lx3 := ExampleAgain(cache, collected, dx, lx1);
  }

  /** Lines 11-12: two models under two names. */
  method ExampleModels(cache: ModelCache) returns (dx: CarModel, lx1: CarModel)
    requires cache.Valid() && cache.models == map[]
    modifies cache, cache.Repr
    ensures cache.Valid() && fresh(cache.Repr - old(cache.Repr))
    ensures cache.models == map["FIT DX" := dx, "FIT LX" := lx1]
    ensures cache.stock == map["FIT DX" := Defaults, "FIT LX" := AllFour]
  {
    dx := cache.Make("FIT DX", Defaults);
    lx1 := cache.Make("FIT LX", AllFour);
  }

  /** Lines 19-30: the collection, then `FIT LX` constructed twice more. */
  method ExampleAgain(cache: ModelCache, collected: bool, dx: CarModel, lx1: CarModel)
    returns (lx2: CarModel, lx3: CarModel)
    requires cache.Valid()
    requires cache.models == map["FIT DX" := dx, "FIT LX" := lx1]
    requires cache.stock == map["FIT DX" := Defaults, "FIT LX" := AllFour]
    modifies cache, cache.Repr
    ensures dx.flags == Defaults
    ensures lx2 == lx3 && lx3.flags.air
    ensures !collected ==> lx2 == lx1
    ensures collected ==> lx2 != lx1
  {
    if collected {
      cache.Evict("FIT LX");
    }
    assert cache.models["FIT DX"] == dx && cache.stock["FIT DX"] == Defaults;
    lx2 := cache.Make("FIT LX", AllFour);
    lx3 := cache.Make("FIT LX", Defaults);
    assert cache.models["FIT DX"] == dx && cache.stock["FIT DX"] == Defaults;
  }
}
