/** oct2py's Struct: a dictionary whose items can also be read, set and
    deleted as attributes, and which creates an empty nested Struct when a
    missing key is read on the way to an assignment. The dictionary is the
    field `fields`; every method changes nothing but that field, and says
    what it becomes in terms of the value-level functions of StructModel. */
module Structs {
  import opened StructModel
  import opened Bytecode

  class Struct<T> {
    var fields: map<string, Val<T>>

    /** `Struct()`: an empty struct. */
    constructor ()
      ensures fields == map[]
    {
      fields := map[];
    }

    /** The get-or-create read: what Struct.__getitem__ does when the caller
        is about to assign into the result. */
    method GetOrCreate(key: string) returns (r: Result<Val<T>>)
      modifies this
      ensures Step(r, fields) == Item(old(fields), key, true)
      ensures key !in old(fields) && !IsPrivate(key) ==>
        r == Ok(Nested(map[])) && fields == old(fields)[key := Nested(map[])]
      ensures key in old(fields) || IsPrivate(key) ==> fields == old(fields)
    {
      if key !in fields && !IsPrivate(key) {
        fields := fields[key := Nested(map[])];
      }
      r := if key in fields then Ok(fields[key]) else Err(KeyError(key));
    }

    /** The get-or-fail read: what Struct.__getitem__ does for a terminal
        read. It changes nothing; an absent key is a KeyError. */
    method GetOrFail(key: string) returns (r: Result<Val<T>>)
      ensures r.Ok? <==> key in fields
      ensures r.Ok? ==> r.value == fields[key]
      ensures r.Err? ==> r.error == KeyError(key)
    {
      r := if key in fields then Ok(fields[key]) else Err(KeyError(key));
    }

    /** Struct.__getitem__ as the source decides it: a present key, or a
        private one, is looked up directly; otherwise the calling frames
        decide whether the key is created first. */
    method GetItemAt(key: string, caller: Frame, outer: Option<Frame>) returns (r: Result<Val<T>>)
      requires key !in fields && !IsPrivate(key) ==> FramesReadable(caller, outer)
      modifies this
      ensures key in old(fields) || IsPrivate(key) ==>
        Step(r, fields) == Item(old(fields), key, false)
      ensures key !in old(fields) && !IsPrivate(key) ==>
        Step(r, fields) == Item(old(fields), key, CreatesAt(caller, outer))
    {
      if key in fields || IsPrivate(key) {
        r := GetOrFail(key);
      } else if CreatesAt(caller, outer) {
        r := GetOrCreate(key);
      } else {
        r := GetOrFail(key);
      }
    }

    /** Struct.__getattr__ for a terminal attribute read: the item read,
        with its KeyError turned into an AttributeError naming the
        attribute. It changes nothing. */
    method GetAttrOrFail(key: string) returns (r: Result<Val<T>>)
      ensures r.Ok? <==> key in fields
      ensures r.Ok? ==> r.value == fields[key]
      ensures r.Err? ==> r.error == AttributeError(NoAttributeMessage(key))
    {
      r := GetOrFail(key);
      if r.Err? {
        r := Err(AttributeError(NoAttributeMessage(key)));
      }
    }

    /** Struct.__getattr__ as the source runs it: the item read is made from
        inside __getattr__ (`getattrFrame`) on behalf of the user's code
        (`userFrame`), which are the two frames __getitem__ inspects. */
    method GetAttrAt(key: string, getattrFrame: Frame, userFrame: Frame) returns (r: Result<Val<T>>)
      requires key !in fields && !IsPrivate(key) ==> FramesReadable(getattrFrame, Some(userFrame))
      modifies this
      ensures key in old(fields) || IsPrivate(key) ==>
        Step(r, fields) == Attr(old(fields), key, false)
      ensures key !in old(fields) && !IsPrivate(key) ==>
        Step(r, fields) == Attr(old(fields), key, CreatesAt(getattrFrame, Some(userFrame)))
    {
      r := GetItemAt(key, getattrFrame, Some(userFrame));
      if r.Err? {
        r := Err(AttributeError(NoAttributeMessage(key)));
      }
    }

    /** `s[key] = v` and `s.key = v` (`__setattr__ = dict.__setitem__`):
        binds the key, whatever it was before. */
    method Set(key: string, v: Val<T>)
      modifies this
      ensures fields == old(fields)[key := v]
    {
      fields := fields[key := v];
    }

    /** `del s[key]` and `del s.key` (`__delattr__ = dict.__delitem__`). */
    method Delete(key: string) returns (r: Result<()>)
      modifies this
      ensures r.Ok? <==> key in old(fields)
      ensures r.Ok? ==> Remove(old(fields), key) == Ok(fields)
      ensures r.Err? ==> r.error == KeyError(key) && fields == old(fields)
    {
      if key in fields {
        fields := fields - {key};
        r := Ok(());
      } else {
        r := Err(KeyError(key));
      }
    }

    /** A chained assignment such as `s.k1[k2].k3 = v` run on this struct. */
    method AssignChain(path: seq<Access>, v: Val<T>) returns (r: Result<()>)
      requires |path| > 0
      modifies this
      ensures Step(r, fields) == Assign(old(fields), path, v)
      ensures r.Ok? ==> Read(fields, path) == Ok(v)
    {
      var s := Assign(fields, path, v);
      fields, r := s.after, s.result;
      if r.Ok? {
        AssignThenRead(old(fields), path, v);
      }
    }
  }

  /** Whether `op` is the opcode that follows the lookup of step `i` in the
      compiled chain: a constant load before a literal subscript, some
      other load (a name, not an allowed opcode) before a computed
      subscript, the closing STORE_ATTR before a last attribute step, and
      another attribute load otherwise. */
  predicate FollowsInChain(path: seq<Access>, i: nat, op: Byte)
    requires i + 1 < |path|
  {
    match path[i + 1]
    case ByItem(_, literal) =>
      if literal then op == LOAD_CONST else op !in [STORE_ATTR, LOAD_CONST, STOP_CODE]
    case ByAttr(_) => op == if i + 2 == |path| then STORE_ATTR else LOAD_ATTR
  }

  /** CreatesInChain is the decision Struct.__getitem__ takes from the frames
      while the user's code runs the compiled chain. An attribute step is a
      LOAD_ATTR followed by the opcode FollowsInChain names, inspected from
      inside __getattr__, whose own frame never permits creation. A
      subscript step is a one-byte BINARY_SUBSCR followed by such an
      instruction with an argument below 256, so the byte three past it is
      0, which is STOP_CODE, whatever the frame above the user's. */
  lemma ChainCreationFollowsBytecode(
    path: seq<Access>, i: nat, getattrFrame: Frame, user: Frame, outer: Option<Frame>)
    requires i + 1 < |path|
    requires HasNextOp(getattrFrame) && !IsAllowed(getattrFrame)
    requires user.lasti + 3 < |user.code|
    requires path[i].ByAttr? ==>
      user.code[user.lasti] == LOAD_ATTR && FollowsInChain(path, i, user.code[user.lasti + 3])
    requires path[i].ByItem? ==>
      user.code[user.lasti] == BINARY_SUBSCR && FollowsInChain(path, i, user.code[user.lasti + 1]) &&
      user.code[user.lasti + 3] == 0
    requires outer.Some? ==> HasNextOp(outer.value)
    ensures path[i].ByAttr? ==>
      FramesReadable(getattrFrame, Some(user)) &&
      CreatesAt(getattrFrame, Some(user)) == CreatesInChain(path, i)
    ensures path[i].ByItem? ==>
      FramesReadable(user, outer) && CreatesAt(user, outer) == CreatesInChain(path, i)
  {
  }

  /** test_struct: `test.spam = 'eggs'; test.eggs.spam = 'eggs'`, after which
      `test['spam']` and `test['eggs']['spam']` are both 'eggs'. */
  method StructTest() returns (spam: Result<Val<string>>, eggsSpam: Result<Val<string>>)
    ensures spam == Ok(Leaf("eggs"))
    ensures eggsSpam == Ok(Leaf("eggs"))
  {
    var test := new Struct<string>();
    test.Set("spam", Leaf("eggs"));
    var _ := test.AssignChain([ByAttr("eggs"), ByAttr("spam")], Leaf("eggs"));
    spam := test.GetOrFail("spam");
    eggsSpam := Read(test.fields, [ByItem("eggs", true), ByItem("spam", true)]);
  }

  /** The class docstring: `a.b = 'spam'; a.c["d"] = 'eggs'` leaves `a`
      equal to `{'c': {'d': 'eggs'}, 'b': 'spam'}`. */
  method DocstringExample() returns (contents: map<string, Val<string>>)
    ensures contents == map["b" := Leaf("spam"), "c" := Nested(map["d" := Leaf("eggs")])]
  {
    var a := new Struct<string>();
    a.Set("b", Leaf("spam"));
    var _ := a.AssignChain([ByAttr("c"), ByItem("d", true)], Leaf("eggs"));
    contents := a.fields;
  }

  /** The leaves of the module's own demonstration: numbers and text. */
  datatype Datum = Number(n: int) | Text(t: string)

  /** The first half of the demonstration at the end of the module: item
      assignments, then chains that start with an attribute and end with a
      subscript or an attribute, each creating the Struct it passes. */
  method DemonstrationAttributeChains() returns (contents: map<string, Val<Datum>>)
    ensures contents == map[
      "foo" := Leaf(Number(3)),
      "bar" := Leaf(Number(2)),
      "baz" := Nested(map["bar" := Leaf(Number(1))]),
      "bob" := Nested(map["charlie" := Leaf(Number(1))])]
  {
    var a := new Struct<Datum>();
    a.Set("foo", Leaf(Number(3)));
    a.Set("bar", Leaf(Number(2)));
    var _ := a.AssignChain([ByAttr("baz"), ByItem("bar", true)], Leaf(Number(1)));
    var _ := a.AssignChain([ByAttr("bob"), ByAttr("charlie")], Leaf(Number(1)));
    contents := a.fields;
  }

  /** The second half, the chains under `fizz`: two subscripts create
      `fizz`, three subscripts create `bongo` inside it, and a subscript
      followed by an attribute store sets `dog` there. */
  method DemonstrationSubscriptChains() returns (contents: map<string, Val<Datum>>)
    ensures contents == map["fizz" := Nested(map[
      "buzz" := Leaf(Number(3)),
      "bongo" := Nested(map["bear" := Leaf(Number(4))]),
      "dog" := Leaf(Text("fido"))])]
  {
    var a := new Struct<Datum>();
    var buzz := [ByItem("fizz", true), ByItem("buzz", true)];
    var _ := a.AssignChain(buzz, Leaf(Number(3)));
    ghost var fizz := map["buzz" := Leaf(Number(3))];
    assert a.fields == map["fizz" := Nested(fizz)];
    var bear := [ByItem("fizz", true), ByItem("bongo", true), ByItem("bear", true)];
    AssignThroughNested(a.fields, bear, Leaf(Number(4)));
    AssignIntoAbsent(fizz, bear[1..], Leaf(Number(4)));
    var _ := a.AssignChain(bear, Leaf(Number(4)));
    fizz := fizz["bongo" := Nested(map["bear" := Leaf(Number(4))])];
    assert a.fields == map["fizz" := Nested(fizz)];
    var dog := [ByItem("fizz", true), ByAttr("dog")];
    AssignThroughNested(a.fields, dog, Leaf(Text("fido")));
    var _ := a.AssignChain(dog, Leaf(Text("fido")));
    contents := a.fields;
  }

  /** `s.a.b.c = 1` on an empty struct: `a` is not created (its load is
      followed by another attribute load), so the chain raises the
      AttributeError naming `a` and the struct stays empty. */
  method ThreeAttributeChainFails() returns (r: Result<()>, contents: map<string, Val<int>>)
    ensures r == Err(AttributeError("'Struct' object has no attribute a"))
    ensures contents == map[]
  {
    var s := new Struct<int>();
    r := s.AssignChain([ByAttr("a"), ByAttr("b"), ByAttr("c")], Leaf(1));
    contents := s.fields;
  }

  /** `s.a[k] = 1` on an empty struct, with `k` a variable holding "d": the
      load of `a` is followed by the load of `k`, not a constant, so `a` is
      not created and the chain raises the AttributeError naming `a`. */
  method ComputedKeyChainFails() returns (r: Result<()>, contents: map<string, Val<int>>)
    ensures r == Err(AttributeError("'Struct' object has no attribute a"))
    ensures contents == map[]
  {
    var s := new Struct<int>();
    r := s.AssignChain([ByAttr("a"), ByItem("d", false)], Leaf(1));
    contents := s.fields;
  }

  /** `test.eggs.spam = ...` on a struct without `eggs`: the user's load of
      `eggs` is followed by a STORE_ATTR, so __getattr__ hands back a new
      empty Struct, now bound under `eggs`. */
  method ChainedAttributeStore(getattrFrame: Frame, userFrame: Frame)
    returns (r: Result<Val<int>>, contents: map<string, Val<int>>)
    requires HasNextOp(userFrame) && NextOp(userFrame) == STORE_ATTR
    ensures r == Ok(Nested(map[]))
    ensures contents == map["eggs" := Nested(map[])]
  {
    var test := new Struct<int>();
    r := test.GetAttrAt("eggs", getattrFrame, userFrame);
    contents := test.fields;
  }

  /** A terminal attribute read of a missing key (neither frame followed by
      an allowed opcode) raises the AttributeError and leaves the struct
      empty. */
  method TerminalAttributeReadFails(getattrFrame: Frame, userFrame: Frame)
    returns (r: Result<Val<int>>, contents: map<string, Val<int>>)
    requires HasNextOp(getattrFrame) && !IsAllowed(getattrFrame)
    requires HasNextOp(userFrame) && !IsAllowed(userFrame)
    ensures r == Err(AttributeError(NoAttributeMessage("micro")))
    ensures contents == map[]
  {
    var a := new Struct<int>();
    r := a.GetAttrAt("micro", getattrFrame, userFrame);
    contents := a.fields;
  }
}
