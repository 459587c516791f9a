/** The contents of an oct2py Struct as a value: a dictionary from string keys
    to values, where a value is either some leaf datum or a nested Struct.
    Item- and attribute-style access share this one dictionary. The functions
    here say what each access does to it; the class in module Structs applies
    them to a Struct's state. */
module StructModel {

  datatype Error =
    | KeyError(key: string)            // dict lookup or deletion of an absent key
    | AttributeError(message: string)  // attribute read of an absent key
    | NotAStruct(key: string)          // a chain continued through a value that is not a Struct

  datatype Result<R> = Ok(value: R) | Err(error: Error)

  datatype Val<T> = Leaf(data: T) | Nested(fields: map<string, Val<T>>)

  type Fields<T> = map<string, Val<T>>

  /** What an access returns, and the dictionary after it. */
  datatype Step<R, T> = Step(result: Result<R>, after: Fields<T>)

  /** `key.startswith('_')`: such keys are never created on read. */
  predicate IsPrivate(key: string): (private: bool)
    ensures private <==> "_" <= key
  {
    |key| > 0 && key[0] == '_'
  }

  /** Struct.__getitem__, with the creating decision given as `create`
      instead of being read off the caller's bytecode. A present key is
      returned; an absent private key, or an absent key read in terminal
      context, is a KeyError; an absent public key read in creating context
      is bound to a new empty Struct, which is returned. */
  function Item<T>(m: Fields<T>, key: string, create: bool): (s: Step<Val<T>, T>)
    ensures forall k :: k in m ==> k in s.after && s.after[k] == m[k]
    ensures s.after.Keys <= m.Keys + {key}
    ensures s.result.Ok? <==> key in s.after
    ensures s.result.Ok? ==> s.result.value == s.after[key]
    ensures s.result.Err? ==> s.result.error == KeyError(key) && s.after == m
    ensures s.after != m ==> create && !IsPrivate(key) && s.result == Ok(Nested(map[]))
    ensures create && !IsPrivate(key) ==> s.result.Ok?
  {
    if key in m || IsPrivate(key) then
      (if key in m then Step(Ok(m[key]), m) else Step(Err(KeyError(key)), m))
    else
      var m' := if create then m[key := Nested(map[])] else m;
      if key in m' then Step(Ok(m'[key]), m') else Step(Err(KeyError(key)), m')
  }

  /** The message Struct.__getattr__ raises for an absent attribute. */
  function NoAttributeMessage(attr: string): (msg: string)
    ensures |msg| > |attr| && msg[|msg| - |attr|..] == attr
  {
    "'Struct' object has no attribute " + attr
  }

  /** Struct.__getattr__: an item read whose KeyError becomes an
      AttributeError naming the attribute; success and state are the item
      read's. */
  function Attr<T>(m: Fields<T>, key: string, create: bool): (s: Step<Val<T>, T>)
    ensures s.after == Item(m, key, create).after
    ensures s.result.Ok? <==> Item(m, key, create).result.Ok?
    ensures s.result.Ok? ==> s.result == Item(m, key, create).result
    ensures s.result.Err? ==> s.result.error == AttributeError(NoAttributeMessage(key))
  {
    var s := Item(m, key, create);
    if s.result.Err? then Step(Err(AttributeError(NoAttributeMessage(key))), s.after) else s
  }

  /** `__delattr__ = dict.__delitem__`: removes a present key; an absent
      one is a KeyError (not an AttributeError). */
  function Remove<T>(m: Fields<T>, key: string): (r: Result<Fields<T>>)
    ensures r.Ok? <==> key in m
    ensures r.Ok? ==> r.value.Keys == m.Keys - {key}
    ensures r.Ok? ==> forall k :: k in r.value ==> r.value[k] == m[k]
    ensures r.Err? ==> r.error == KeyError(key)
  {
    if key in m then Ok(m - {key}) else Err(KeyError(key))
  }

  /** One step of a chain: a subscript `[key]` (through __getitem__) or an
      attribute `.key` (through __getattr__). A subscript is `literal` when
      the code of its key expression starts with a constant load, as for
      `['d']`; a key held in a variable (`[k]`) starts with a name load. */
  datatype Access = ByItem(key: string, literal: bool) | ByAttr(key: string)

  /** The error a failed lookup of one step raises. */
  function FailureOf(a: Access): Error {
    if a.ByItem? then KeyError(a.key) else AttributeError(NoAttributeMessage(a.key))
  }

  /** The lookup one step makes: Item for a subscript, Attr for an attribute. */
  function Lookup<T>(m: Fields<T>, a: Access, create: bool): (s: Step<Val<T>, T>)
    ensures s.after == Item(m, a.key, create).after
    ensures s.result.Ok? <==> a.key in s.after
    ensures s.result.Ok? ==> s.result.value == s.after[a.key]
    ensures s.result.Err? ==> s.result.error == FailureOf(a)
  {
    if a.ByItem? then Item(m, a.key, create) else Attr(m, a.key, create)
  }

  /** Whether the lookup of step `i` (not the last) of a chained assignment
      is made in creating context, by the rule Struct.__getitem__ reads off
      the bytecode of the compiled chain (CPython 2, argument indices below
      256):
      - a subscript is a one-byte BINARY_SUBSCR, so the byte three past it is
        the high byte of the next instruction's argument, 0, read as
        STOP_CODE: it always creates;
      - an attribute load is a three-byte LOAD_ATTR, and the byte three past
        it is the next opcode: a constant load (which creates) when the next
        step is a literal subscript, a name load (which does not) when the
        next step is a computed subscript, the closing STORE_ATTR (which
        creates) when the next step is the last attribute, and another
        LOAD_ATTR (which does not) otherwise.
      The frame inside __getattr__ is the same on every attribute read and
      does not permit creation (else no attribute read could fail). */
  function CreatesInChain(path: seq<Access>, i: nat): (creates: bool)
    requires i + 1 < |path|
    ensures creates <==>
      path[i].ByItem? ||
      (path[i + 1].ByItem? && path[i + 1].literal) ||
      (path[i + 1].ByAttr? && i + 2 == |path|)
  {
    path[i].ByItem? || (if path[i + 1].ByItem? then path[i + 1].literal else i + 2 == |path|)
  }

  /** The chained assignment `s.k1[k2].k3 ... = v`: every step but the last is
      looked up, in creating context where CreatesInChain says so, and the
      last key is set (item- and attribute-style assignment are both
      `dict.__setitem__`). The value-level update writes each nested Struct
      back under its key; the source mutates that nested object in place,
      which comes to the same dictionary. A failure part-way keeps what the
      chain created before it. */
  function Assign<T>(m: Fields<T>, path: seq<Access>, v: Val<T>): (s: Step<(), T>)
    requires |path| > 0
    ensures forall k :: k in m && k != path[0].key ==> k in s.after && s.after[k] == m[k]
    ensures s.after.Keys <= m.Keys + {path[0].key}
    ensures s.result.Ok? ==> s.after.Keys == m.Keys + {path[0].key}
    decreases |path|
  {
    if |path| == 1 then
      Step(Ok(()), m[path[0].key := v])
    else
      var head := Lookup(m, path[0], CreatesInChain(path, 0));
      match head.result
      case Err(e) => Step(Err(e), head.after)
      case Ok(Leaf(_)) => Step(Err(NotAStruct(path[0].key)), head.after)
      case Ok(Nested(sub)) =>
        var inner := Assign(sub, path[1..], v);
        Step(inner.result, head.after[path[0].key := Nested(inner.after)])
  }

  /** The chained read `s[k1].k2 ...` with every lookup in terminal context:
      nothing is created. On success the first key is present; a failure is
      the failed lookup of one of the chain's steps, or one of its keys
      holding a value that is not a Struct. */
  function Read<T>(m: Fields<T>, path: seq<Access>): (r: Result<Val<T>>)
    requires |path| > 0
    ensures r.Ok? ==> path[0].key in m
    ensures r.Err? ==> exists a :: a in path && (r.error == FailureOf(a) || r.error == NotAStruct(a.key))
    decreases |path|
  {
    var head := Lookup(m, path[0], false).result;
    if |path| == 1 then head
    else
      match head
      case Err(e) => Err(e)
      case Ok(Leaf(_)) => Err(NotAStruct(path[0].key))
      case Ok(Nested(sub)) =>
        var r := Read(sub, path[1..]);
        assert forall a :: a in path[1..] ==> a in path;
        r
  }

  /** The value a chain of assignments into absent keys builds below its
      first key: one nested Struct per remaining step, `v` at the bottom. */
  function Spine<T>(steps: seq<Access>, v: Val<T>): Val<T>
    decreases |steps|
  {
    if steps == [] then v else Nested(map[steps[0].key := Spine(steps[1..], v)])
  }

  /** Setting a key (item- or attribute-style) makes every later read of it,
      in either context, return the value set, and leaves what any other key
      reads as it was. */
  lemma SetThenItem<T>(m: Fields<T>, key: string, v: Val<T>, other: string, create: bool)
    requires other != key
    ensures Item(m[key := v], key, create) == Step(Ok(v), m[key := v])
    ensures Item(m[key := v], other, false).result == Item(m, other, false).result
  {
  }

  /** Reading a key again after a successful read returns the same value
      and changes nothing, in either context. */
  lemma ItemAgain<T>(m: Fields<T>, key: string, create: bool, again: bool)
    requires Item(m, key, create).result.Ok?
    ensures Item(Item(m, key, create).after, key, again) == Item(m, key, create)
  {
  }

  /** After a chained assignment succeeds, the terminal chained read of the
      same steps returns the value assigned. */
  lemma {:induction false} AssignThenRead<T>(m: Fields<T>, path: seq<Access>, v: Val<T>)
    requires |path| > 0
    requires Assign(m, path, v).result.Ok?
    ensures Read(Assign(m, path, v).after, path) == Ok(v)
    decreases |path|
  {
    if |path| > 1 {
      var head := Lookup(m, path[0], CreatesInChain(path, 0));
      var sub := head.result.value.fields;
      AssignThenRead(sub, path[1..], v);
    }
  }

  /** A chained assignment, even one that fails part-way, leaves every
      readable path that branches off its own path (same keys up to step i,
      a different key at step i) reading as before. */
  lemma {:induction false} AssignLeavesOtherPaths<T>(
    m: Fields<T>, path: seq<Access>, v: Val<T>, q: seq<Access>, i: nat)
    requires |path| > 0 && i < |path| && i < |q|
    requires forall j :: 0 <= j < i ==> q[j].key == path[j].key
    requires q[i].key != path[i].key
    requires Read(m, q).Ok?
    ensures Read(Assign(m, path, v).after, q) == Read(m, q)
    decreases i
  {
    if i > 0 {
      var sub := m[q[0].key].fields;
      forall j | 0 <= j < i - 1
        ensures q[1..][j].key == path[1..][j].key
      {
        assert q[j + 1].key == path[j + 1].key;
      }
      AssignLeavesOtherPaths(sub, path[1..], v, q[1..], i - 1);
    }
  }

  /** A chained assignment whose first key is absent, whose intermediate
      keys are all public and whose every intermediate step creates,
      succeeds and binds that first key to the spine of new nested Structs
      ending in the value. */
  lemma {:induction false} AssignIntoAbsent<T>(m: Fields<T>, path: seq<Access>, v: Val<T>)
    requires |path| > 0 && path[0].key !in m
    requires forall j :: 0 <= j < |path| - 1 ==> !IsPrivate(path[j].key) && CreatesInChain(path, j)
    ensures Assign(m, path, v) == Step(Ok(()), m[path[0].key := Spine(path[1..], v)])
    decreases |path|
  {
    if |path| > 1 {
      var rest := path[1..];
      assert !IsPrivate(path[0].key) && CreatesInChain(path, 0);
      var head := Lookup(m, path[0], true);
      assert head == Step(Ok(Nested(map[])), m[path[0].key := Nested(map[])]);
      forall j | 0 <= j < |rest| - 1
        ensures !IsPrivate(rest[j].key) && CreatesInChain(rest, j)
      {
        assert rest[j] == path[j + 1] && rest[j + 1] == path[j + 2];
        assert !IsPrivate(path[j + 1].key) && CreatesInChain(path, j + 1);
      }
      AssignIntoAbsent(map[], rest, v);
      var inner := Assign(map[], rest, v);
      assert Nested(inner.after) == Spine(rest, v);
      assert head.after[path[0].key := Nested(inner.after)] == m[path[0].key := Spine(rest, v)];
    }
  }

  /** A chain whose first key already holds a nested Struct changes only
      that Struct, as the rest of the chain does to it, whatever context its
      first lookup is made in. */
  lemma AssignThroughNested<T>(m: Fields<T>, path: seq<Access>, v: Val<T>)
    requires |path| > 1 && path[0].key in m && m[path[0].key].Nested?
    ensures Assign(m, path, v) ==
      var inner := Assign(m[path[0].key].fields, path[1..], v);
      Step(inner.result, m[path[0].key := Nested(inner.after)])
  {
  }

  /** `s.a.b.c = v` with `a` absent: the load of `a` is followed by another
      attribute load, so `a` is not created, and the chain fails at once
      with the AttributeError naming `a`, leaving the struct unchanged. */
  lemma AttributeChainIntoAbsentFails<T>(m: Fields<T>, path: seq<Access>, v: Val<T>)
    requires |path| > 2 && path[0].ByAttr? && path[1].ByAttr? && path[0].key !in m
    ensures !CreatesInChain(path, 0)
    ensures Assign(m, path, v) == Step(Err(AttributeError(NoAttributeMessage(path[0].key))), m)
  {
  }

  /** `s.a[k] = v` with `a` absent and `k` a variable: the load of `a` is
      followed by the load of `k`, so `a` is not created, and the chain
      fails at once with the AttributeError naming `a`. */
  lemma ComputedKeyAfterAbsentAttributeFails<T>(m: Fields<T>, path: seq<Access>, v: Val<T>)
    requires |path| > 1 && path[0].ByAttr? && path[1].ByItem? && !path[1].literal
    requires path[0].key !in m
    ensures !CreatesInChain(path, 0)
    ensures Assign(m, path, v) == Step(Err(AttributeError(NoAttributeMessage(path[0].key))), m)
  {
  }

  /** A chain whose first step is a private key that is absent fails at
      that step with the lookup's own error (KeyError for a subscript,
      AttributeError for an attribute) and changes nothing. */
  lemma PrivateHeadFails<T>(m: Fields<T>, path: seq<Access>, v: Val<T>)
    requires |path| > 1 && IsPrivate(path[0].key) && path[0].key !in m
    ensures Assign(m, path, v) == Step(Err(FailureOf(path[0])), m)
  {
  }

  /** Deleting a key leaves it readable in neither style: a terminal read is
      a KeyError, and the other keys read as before. */
  lemma RemoveThenItem<T>(m: Fields<T>, key: string, other: string)
    requires key in m && other != key
    ensures Item(Remove(m, key).value, key, false).result == Err(KeyError(key))
    ensures Item(Remove(m, key).value, other, false).result == Item(m, other, false).result
  {
  }
}
