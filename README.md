# oct2py Struct and call-site decisions, in Dafny

This project models the logic of `oct2py/utils.py`, the helper module of
oct2py (a bridge between Python and GNU Octave):

- `Struct`, the Python-side image of an Octave struct. It is a dictionary
  whose entries can be read, set and deleted both item-style (`s['a']`) and
  attribute-style (`s.a`), on the same storage. Reading a missing key on the
  way to an assignment (`s.a.b = x`, `s['a']['b'] = x`) creates an empty
  nested `Struct` under that key. Keys starting with `_` are never created.
  Whether a lookup creates is read off the bytecode that follows it. A
  subscript always creates. An attribute creates only when the next
  instruction loads a constant (a literal subscript such as `s.a['d']`) or
  is the final attribute store. So `s.a.b.c = x`, and `s.a[k] = x` with `k`
  a variable, fail with an `AttributeError` naming `a` when `a` is absent.
  A terminal attribute read of a missing key raises an `AttributeError` that
  names the attribute.
- The two decisions oct2py takes by looking at the caller's bytecode:
  `get_nout`, the number of results the caller expects, and
  `Struct._is_allowed`, whether a missing key should be created.

Files:

- `bytecode.dfy` (module `Bytecode`): a frame becomes `Frame(code, lasti)`.
  It holds `NOut` (get_nout), `IsAllowed` (`_is_allowed`) and `CreatesAt`.
  `CreatesAt` is the create-or-not rule of `__getitem__` over the caller's
  frame and the optional frame above it. The opcode numbers are CPython 2's
  (`STOP_CODE` 0, `POP_TOP` 1, `UNPACK_SEQUENCE` 92, `STORE_ATTR` 95,
  `LOAD_CONST` 100, and `BINARY_SUBSCR` 25, `LOAD_ATTR` 106 for chains).
  The lemmas rely on their being distinct, and on `STOP_CODE` being 0: the
  byte three past a one-byte subscript is the zero high byte of the next
  argument, which `_is_allowed` reads as `STOP_CODE`.
- `struct_model.dfy` (module `StructModel`): a Struct's contents as a value,
  `map<string, Val<T>>`, where `Val<T>` is `Leaf(T)` or `Nested(map)`.
  - `Item`, `Attr` and `Remove` are `__getitem__`, `__getattr__` and
    `__delattr__`. The creating decision is an explicit `create` flag.
  - `Assign` and `Read` are a chain of lookups followed by an assignment,
    or a chain of terminal reads. Each step of a chain is a subscript
    (`ByItem`, marked literal when its key expression starts with a
    constant load) or an attribute (`ByAttr`).
  - `CreatesInChain` is the creating decision for each intermediate step.
  - The lemmas relate these operations to each other.
- `structs.dfy` (module `Structs`): the class `Struct<T>` with one field,
  `fields`.
  - Item- and attribute-style access both act on that field.
  - `GetOrCreate` and `GetOrFail` are the two read modes.
  - `GetItemAt` and `GetAttrAt` take the creating decision from frames, as the
    source does.
  - Each mutating method states the new `fields` in terms of `StructModel`.
  - Client methods replay the test and the docstring example.

Where the code and the wider design of oct2py disagree, the model follows the
code. Deleting an absent attribute raises `KeyError`, not `AttributeError`:
`__delattr__` is `dict.__delitem__`. No key order is promised, because the
dictionary is a plain `dict` and the docstring prints keys out of insertion
order. The key is created only when one of the two inspected frames is followed
by `STORE_ATTR`, `LOAD_CONST` or opcode 0. No other access pattern creates it.
In particular, an attribute chain of three or more keys does not create its
first key.

## Model

| member | source | states |
|---|---|---|
| `Bytecode.NOut` | oct2py/utils.py:52-61 | the caller expects n values when the next opcode unpacks into n targets (n read from the following byte), 0 when it discards the result with POP_TOP, and 1 otherwise |
| `Bytecode.NOutDeterminedByNextInstruction` | oct2py/utils.py:53-61 | a consequence of NOut's contract, kept as the locality property of get_nout: two frames with the same opcode after the call (and, for an unpacking, the same argument byte) expect the same number of values, wherever the call sits |
| `Bytecode.NOutZero` | oct2py/utils.py:55-60 | the caller expects no value exactly when it discards the result or unpacks into zero targets |
| `Bytecode.IsAllowed` | oct2py/utils.py:125-132 | true exactly when the opcode three bytes past lasti is STORE_ATTR, LOAD_CONST or STOP_CODE |
| `Bytecode.CreatesAt` | oct2py/utils.py:117-122 | a missing key is created exactly when one of the inspected frames (the outer one only if present) can be read and is followed by an allowed opcode |
| `Bytecode.AttributeStoreCreates` | oct2py/utils.py:119-120 | when the user frame is followed by STORE_ATTR, the frames are readable far enough and the key is created, whatever the intermediate frame holds |
| `Bytecode.TerminalReadDoesNotCreate` | oct2py/utils.py:117-123 | when no inspected frame is followed by an allowed opcode, nothing is created |
| `StructModel.Item` | oct2py/utils.py:109-123 | existing entries are never changed. At most the requested key is added, and only by a creating read of a public key, which then binds and returns an empty Struct. A read succeeds iff the key is present afterwards, and returns what is stored there. A failure is a KeyError naming the key and leaves the map unchanged |
| `StructModel.IsPrivate` | oct2py/utils.py:115 | a key is private exactly when it starts with `_`, i.e. `"_"` is a prefix of it |
| `StructModel.NoAttributeMessage` | oct2py/utils.py:106 | the AttributeError message ends with the attribute's name |
| `StructModel.Attr` | oct2py/utils.py:101-107 | same state change and same success as the item read; its failure is an AttributeError with the message naming the attribute |
| `StructModel.Remove` | oct2py/utils.py:135 | succeeds iff the key is present, then removes exactly that key and keeps every other entry; otherwise a KeyError |
| `StructModel.Lookup` | oct2py/utils.py:101-123 | one step of a chain: the same state change as the item read; it succeeds iff the key is present afterwards and returns what is stored there; a failure is a KeyError for a subscript and the AttributeError naming the attribute for an attribute |
| `StructModel.CreatesInChain` | oct2py/utils.py:117-132 | the creating decision for an intermediate step of a compiled chain: a subscript step always creates; an attribute step creates exactly when the next step is a literal subscript or the last step is the attribute after it |
| `StructModel.Assign` | oct2py/utils.py:95-96 | a chained assignment, each step looked up as a subscript or an attribute with the creating decision of CreatesInChain, changes no top-level key other than the first of the chain and adds at most that key; on success that key is present |
| `StructModel.Read` | oct2py/tests/test_oct2py.py:582-583 | a chained terminal read creates nothing; on success its first key is present; a failure is the failed lookup of one of its steps (KeyError or AttributeError by the step's form) or one of its keys holding a value that is not a Struct |
| `StructModel.SetThenItem` | oct2py/utils.py:134 | after setting a key, reading it in either mode returns the value set without further change, and any other key reads as before |
| `StructModel.ItemAgain` | oct2py/utils.py:115-116 | after a successful read, reading the same key again in either mode returns the same value and changes nothing |
| `StructModel.AssignThenRead` | oct2py/tests/test_oct2py.py:579-583 | after a successful chained assignment, the terminal chained read of the same steps returns the assigned value |
| `StructModel.AssignLeavesOtherPaths` | oct2py/utils.py:202-210 | a chained assignment, even one failing part-way, leaves every readable path that branches off its own path (same keys up to a step, a different key there) reading as before |
| `StructModel.AssignIntoAbsent` | oct2py/utils.py:95-98 | a chain whose first key is absent, whose intermediate keys are public and whose every intermediate step creates succeeds, binding that key to nested Structs ending in the value (the docstring's `{'c': {'d': 'eggs'}}`) |
| `StructModel.AssignThroughNested` | oct2py/utils.py:207-210 | a chain whose first key already holds a nested Struct changes only that Struct, as the rest of the chain does to it |
| `StructModel.AttributeChainIntoAbsentFails` | oct2py/utils.py:117-122 | `s.a.b... = v` with `a` absent and two leading attribute steps does not create `a`: it fails with the AttributeError naming `a` and changes nothing |
| `StructModel.ComputedKeyAfterAbsentAttributeFails` | oct2py/utils.py:117-122 | `s.a[k] = v` with `a` absent and `k` a computed key does not create `a`: it fails with the AttributeError naming `a` and changes nothing |
| `StructModel.PrivateHeadFails` | oct2py/utils.py:115-116 | a chain whose first key is private and absent fails with that step's lookup error (KeyError or AttributeError) and changes nothing |
| `StructModel.RemoveThenItem` | oct2py/utils.py:135 | after deleting a key, a terminal read of it is a KeyError and every other key reads as before |
| `Structs.Struct.constructor` | oct2py/utils.py:84 | a new Struct is empty |
| `Structs.Struct.GetOrCreate` | oct2py/utils.py:117-123 | a creating read: an absent public key is bound to an empty Struct, which is returned, and the key set grows by exactly that key; otherwise the struct is unchanged |
| `Structs.Struct.GetOrFail` | oct2py/utils.py:115-116 | a terminal read changes nothing; it returns the stored value iff the key is present, else a KeyError naming the key |
| `Structs.Struct.GetItemAt` | oct2py/utils.py:109-123 | present and private keys are read without creating; for any other key the frames' CreatesAt decides the mode, with the state change Item gives |
| `Structs.Struct.GetAttrOrFail` | oct2py/utils.py:101-107 | a terminal attribute read changes nothing; it returns the stored value iff the key is present, else an AttributeError naming the attribute |
| `Structs.Struct.GetAttrAt` | oct2py/utils.py:101-107 | attribute read through __getattr__: the frames inside __getattr__ and of the user decide creation; the result and new state are Attr's |
| `Structs.Struct.Set` | oct2py/utils.py:134 | item and attribute assignment bind the key and leave every other entry as it was |
| `Structs.Struct.Delete` | oct2py/utils.py:135 | removes exactly the key when present; otherwise a KeyError and no change |
| `Structs.Struct.AssignChain` | oct2py/utils.py:95-96 | the struct's new contents and the outcome are the chained assignment's, and on success the chained read of the same steps returns the value |
| `Structs.ChainCreationFollowsBytecode` | oct2py/utils.py:117-132 | for a chain compiled as LOAD_ATTR or BINARY_SUBSCR steps, each followed by the load of the next step's key (a constant for a literal subscript, any non-allowed load for a computed one), LOAD_ATTR or the closing STORE_ATTR, with argument indices below 256 and the frame inside __getattr__ not permitting creation, the frame-driven decision CreatesAt of each intermediate step equals CreatesInChain |
| `Structs.StructTest` | oct2py/tests/test_oct2py.py:576-583 | after `test.spam = 'eggs'` and `test.eggs.spam = 'eggs'`, both `test['spam']` and `test['eggs']['spam']` are 'eggs' |
| `Structs.DocstringExample` | oct2py/utils.py:93-98 | `a.b = 'spam'; a.c["d"] = 'eggs'` yields `{'c': {'d': 'eggs'}, 'b': 'spam'}` |
| `Structs.DemonstrationAttributeChains` | oct2py/utils.py:202-206 | after `a['foo'] = 3; a['bar'] = 2; a.baz['bar'] = 1; a.bob.charlie = 1`, `a` holds exactly those four keys, `baz` and `bob` as new nested Structs |
| `Structs.DemonstrationSubscriptChains` | oct2py/utils.py:207-210 | `a['fizz']['buzz'] = 3; a['fizz']['bongo']['bear'] = 4; a['fizz'].dog = 'fido'` yields `{'fizz': {'buzz': 3, 'bongo': {'bear': 4}, 'dog': 'fido'}}` |
| `Structs.ThreeAttributeChainFails` | oct2py/utils.py:101-107 | `s.a.b.c = 1` on an empty struct raises the AttributeError naming `a` and leaves the struct empty |
| `Structs.ComputedKeyChainFails` | oct2py/utils.py:101-107 | `s.a[k] = 1` on an empty struct, `k` a variable, raises the AttributeError naming `a` and leaves the struct empty |
| `Structs.ChainedAttributeStore` | oct2py/utils.py:214-216 | on an empty struct, `test.eggs` followed by STORE_ATTR returns a new empty Struct now bound under `eggs` |
| `Structs.TerminalAttributeReadFails` | oct2py/utils.py:211-213 | a terminal attribute read of a missing key raises the AttributeError and leaves the struct empty |

## Left out

- `_remove_temp_files` and its `atexit` registration: globbing and deleting files at interpreter exit are file-system I/O.
- `create_file`: creates a temporary file, which is I/O.
- `get_log`, `_setup_log` and `_test`: logging configuration and doctest running.
- `Oct2PyError`: an empty exception class. Failures are the `Error` datatype instead.
- The `__dict__` property and pickling: interpreter conveniences for REPL completion and serialisation.
- Frame mechanics: `inspect.currentframe`, `f_back` and the Python 2 `ord` conversion. A frame is given as its code bytes and `lasti`.
- `Bytecode.NOut`, `Structs.Struct.GetItemAt`, `Structs.Struct.GetAttrAt`: require the inspected bytes to exist. The IndexError that the source raises when they do not is not modelled.
- `STOP_CODE` does not exist in `dis.opmap` from Python 3.4 on. There `_is_allowed` raises `KeyError`. The model uses the Python 2 opcode table.
- Aliasing of nested Structs: nested Structs are values. A Struct returned by `GetOrCreate` is a copy, so later writes to it do not reach the parent. Chained writes are modelled whole by `Assign`, which writes each nested Struct back under its key.
- Leaf values are opaque. A chain that continues through a non-Struct value (a string, a plain `dict`) fails with `NotAStruct`. The source instead hands that step to the value's own methods.
- Attribute names that are also `dict` methods (`keys`, `items`, ...) resolve to the method in the source before `__getattr__` is called. The model treats every attribute name as a key.
- Chained reads: the source decides creation by bytecode for reads too. A subscript read `y = s['q']` is followed, three bytes on, by the high byte of the next instruction's argument, usually 0, so the source usually creates even there. `Read`, `GetOrFail` and `GetAttrOrFail` model reads in terminal mode only. `GetItemAt` and `GetAttrAt` model the exact decision for one lookup.
- `StructModel.CreatesInChain`: a subscript counts as literal when its key expression's code starts with a constant load (so `s.a[1 + k]` counts as literal, as its first opcode is `LOAD_CONST`); the model takes this flag as given rather than compiling the expression. It states the bytecode rule for chains whose instruction arguments (constant and name indices) are below 256. A larger index makes the byte after a subscript non-zero, which the model does not follow. It also takes the frame inside `__getattr__` as never permitting creation, which holds because a terminal attribute read of a missing key fails in the source.
- Keys are strings only. In the source an absent non-string key (for example `s[1]`) reaches `attr.startswith` and raises `AttributeError`; the model's keys cannot express that.
- The rest of `oct2py/tests/test_oct2py.py`: it exercises type conversion and the Octave session, which need a running Octave process and are not part of this model. The floating-point and NaN comparisons in its helpers are also left out.
