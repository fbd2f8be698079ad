/** The layered node environment: a base dict, a per-item `temp` dict taken
    from an iterList, and two overlays (`propagate`, `escalate`) that only
    take part in lookups once they have been written to. */
module Env {
  import opened Values

  /** `Propagate`: a store that becomes released on its first write. */
  class Propagate {
    var store: map<string, Value>
    var released: bool

    constructor ()
      ensures store == map[] && !released
    {
      store := map[];
      released := false;
    }

    /** `p[key]`: KeyError when absent. */
    function Get(key: string): (r: Result<Value>)
      reads this
      ensures r.Ok? <==> key in store
      ensures r.Ok? ==> r.value == store[key]
    {
      if key in store then Ok(store[key]) else Err(KeyError)
    }

    /** `p[key] = value`. */
    method Set(key: string, value: Value)
      modifies this
      ensures store == old(store)[key := value] && released
    {
      store := store[key := value];
      if !released {
        released := true;
      }
    }

    /** `p.keys()`: None while unreleased. */
    function Keys(): (r: Option<set<string>>)
      reads this
      ensures r.None? <==> !released
      ensures r.Some? ==> forall k :: k in r.value <==> k in store
    {
      if released then Some(store.Keys) else None
    }
  }

  /** `Escalate`. Its store is an `Environment` in the source, whose own
      construction builds another `Escalate`; here the store is the flat dict
      that nested environment's base would be, read with its None default. */
  class Escalate {
    var store: map<string, Value>
    var released: bool

    constructor ()
      ensures store == map[] && !released
    {
      store := map[];
      released := false;
    }

    function Get(key: string): (r: Value)
      reads this
      ensures key in store ==> r == store[key]
      ensures key !in store ==> r == Nil
    {
      Values.Get(store, key)
    }

    method Set(key: string, value: Value)
      modifies this
      ensures store == old(store)[key := value] && released
    {
      store := store[key := value];
      if !released {
        released := true;
      }
    }
  }

  /** The argument of `set_base`, by dynamic type. */
  datatype Base = NoBase | DictBase(d: map<string, Value>) | ListBase(items: seq<map<string, Value>>) | OtherBase

  /** The argument of `update`, by dynamic type. */
  datatype Traffic = TDict(d: map<string, Value>) | TList(items: seq<map<string, Value>>) | TOther

  /** The iterList `set_base` installs, with an empty base or the given one. */
  function BaseOf(b: Base): (r: (map<string, Value>, seq<map<string, Value>>))
    requires !b.OtherBase?
    ensures b.NoBase? ==> r == (map[], [map[]])
    ensures b.DictBase? ==> r == (b.d, [map[]])
    ensures b.ListBase? ==> r == (map[], b.items)
  {
    match b
    case NoBase => (map[], [map[]])
    case DictBase(d) => (d, [map[]])
    case ListBase(items) => (map[], items)
  }

  /** Element-wise dict update of two equally long lists. */
  function MergeEach(it: seq<map<string, Value>>, tr: seq<map<string, Value>>): (r: seq<map<string, Value>>)
    requires |it| == |tr|
    ensures |r| == |it| && forall i :: 0 <= i < |r| ==> r[i] == it[i] + tr[i]
  {
    seq(|it|, i requires 0 <= i < |it| => it[i] + tr[i])
  }

  class Environment {
    var base: map<string, Value>
    var iterList: seq<map<string, Value>>
    /** Position of the next item `step` takes from `iterator`. */
    var cursor: nat
    /** `temp`; None until `step` has taken an item. */
    var temp: Option<map<string, Value>>
    const propagate: Propagate
    const escalate: Escalate

    /** The cursor stays within the iterator, and once `step` has taken an
        item, `temp` is that item: the source's `temp` is the very dict
        held in `iterator`, so an in-place merge of the iterator reaches
        it. */
    predicate Aligned()
      reads this
    {
      cursor <= |iterList| && (0 < cursor ==> temp == Some(iterList[cursor - 1]))
    }

    /** `Environment(base)` for a base that `set_base` accepts; the first
        `step` runs at once. */
    constructor (b: Base)
      requires !b.OtherBase?
      ensures (base, iterList) == BaseOf(b)
      ensures iterList != [] ==> temp == Some(iterList[0]) && cursor == 1
      ensures iterList == [] ==> temp == None && cursor == 0
      ensures fresh(propagate) && fresh(escalate) && !propagate.released && !escalate.released
      ensures propagate.store == map[] && escalate.store == map[]
      ensures Aligned()
    {
      var bi := BaseOf(b);
      base := bi.0;
      iterList := bi.1;
      cursor := 0;
      temp := None;
      propagate := new Propagate();
      escalate := new Escalate();
      new;
      var more := Step();
    }

    /** `Environment(base)`, raising TypeError for a base that is neither
        None, a dict nor a list. */
    static method Create(b: Base) returns (r: Result<Environment>)
      ensures r.Err? <==> b.OtherBase?
      ensures r.Err? ==> r.error == TypeError
      ensures r.Ok? ==> fresh(r.value) && (r.value.base, r.value.iterList) == BaseOf(b)
    {
      if b.OtherBase? {
        return Err(TypeError);
      }
      var e := new Environment(b);
      return Ok(e);
    }

    /** Every key visible through the layers, later layers shadowing
        earlier ones: released escalate, released propagate, temp, base. */
    function View(): (v: map<string, Value>)
      requires temp.Some?
      reads this, propagate, escalate
      ensures forall k :: k in base ==> k in v
    {
      (if escalate.released then escalate.store else map[]) +
      (if propagate.released then propagate.store else map[]) +
      temp.value + base
    }

    /** `env[key]`: base, then temp, then the released propagate overlay,
        then the released escalate overlay; None when found nowhere. Before
        the first successful `step` there is no `temp` to consult. */
    function Lookup(key: string): (r: Result<Value>)
      reads this, propagate, escalate
      ensures key in base ==> r == Ok(base[key])
      ensures key !in base && temp.None? ==> r == Err(AttributeError)
      ensures temp.Some? ==> r == Ok(Values.Get(View(), key))
      ensures r.Ok? && r.value != Nil && key !in base && temp.Some? && key !in temp.value ==>
        propagate.released || escalate.released
    {
      if key in base then Ok(base[key])
      else if temp.None? then Err(AttributeError)
      else if key in temp.value then Ok(temp.value[key])
      else if propagate.released && key in propagate.Keys().value then Ok(propagate.store[key])
      else if escalate.released then Ok(escalate.Get(key))
      else Ok(Nil)
    }

    /** `env[key] = value` writes the base only. */
    method Set(key: string, value: Value)
      modifies this
      ensures base == old(base)[key := value]
      ensures iterList == old(iterList) && cursor == old(cursor) && temp == old(temp)
      ensures Lookup(key) == Ok(value)
      ensures old(Aligned()) ==> Aligned()
    {
      base := base[key := value];
    }

    /** `step`, read as a cursor over `iterator`: takes the next item as
        `temp` and answers whether there was one. */
    method Step() returns (more: bool)
      modifies this
      ensures more <==> old(cursor) < |iterList|
      ensures more ==> temp == Some(iterList[old(cursor)]) && cursor == old(cursor) + 1
      ensures !more ==> temp == old(temp) && cursor == old(cursor)
      ensures base == old(base) && iterList == old(iterList)
      ensures old(Aligned()) ==> Aligned()
    {
      if cursor < |iterList| {
        temp := Some(iterList[cursor]);
        cursor := cursor + 1;
        return true;
      }
      return false;
    }

    /** `update(traffic)`. A dict merges into the base; a list replaces the
        default iterList `[{}]`, must otherwise match its length (ValueError)
        and is merged element-wise, the merge reaching `temp` when `temp` is
        an item of the iterator; anything else is ignored. */
    method Update(traffic: Traffic) returns (r: Outcome)
      modifies this
      ensures r.Fail? <==> traffic.TList? && old(iterList) != [map[]] && |traffic.items| != |old(iterList)|
      ensures r.Fail? ==> r.error == ValueError && iterList == old(iterList)
      ensures traffic.TDict? ==> base == old(base) + traffic.d && iterList == old(iterList)
      ensures traffic.TList? && old(iterList) == [map[]] ==> iterList == traffic.items && cursor == 0
      ensures traffic.TList? && old(iterList) != [map[]] && r.Pass? ==>
        iterList == MergeEach(old(iterList), traffic.items) && cursor == old(cursor)
      ensures !traffic.TDict? ==> base == old(base)
      ensures traffic.TOther? ==> iterList == old(iterList)
      ensures traffic.TList? && old(iterList) != [map[]] && r.Pass? && 0 < cursor <= |iterList| ==>
        temp == Some(iterList[cursor - 1])
      ensures !(traffic.TList? && old(iterList) != [map[]] && r.Pass? && 0 < cursor <= |iterList|) ==>
        temp == old(temp)
      ensures old(Aligned()) ==> Aligned()
      ensures old(Aligned()) && traffic.TList? && old(iterList) != [map[]] && r.Pass? && 0 < cursor ==>
        forall k :: k in traffic.items[cursor - 1] && k !in base ==>
          Lookup(k) == Ok(traffic.items[cursor - 1][k])
    {
      match traffic
      case TDict(d) =>
        base := base + d;
        return Pass;
      case TList(items) =>
        if iterList == [map[]] {
          iterList := items;
          cursor := 0;
          return Pass;
        }
        if |items| != |iterList| {
          return Fail(ValueError);
        }
        var i := 0;
        while i < |items|
          invariant 0 <= i <= |items| == |iterList| == |old(iterList)|
          invariant forall j :: 0 <= j < i ==> iterList[j] == old(iterList[j]) + items[j]
          invariant forall j :: i <= j < |iterList| ==> iterList[j] == old(iterList[j])
          invariant base == old(base) && cursor == old(cursor) && temp == old(temp)
        {
          iterList := iterList[i := iterList[i] + items[i]];
          i := i + 1;
        }
        if 0 < cursor <= |iterList| {
          temp := Some(iterList[cursor - 1]);
        }
        return Pass;
      case TOther =>
        return Pass;
    }
  }
}
