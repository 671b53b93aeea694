/**
  The legacy expectation file: a msgpack map, decoded outside this model,
  and the version gate `_parse_legacy_file` applies to it.
 */
module Legacy {
  import opened Wrappers
  import opened Ids
  import opened Literals

  /**
    A decoded msgpack value. `Other` stands for the kinds the gate never
    looks inside (maps, extension types); floats are not modelled.
   */
  datatype Value =
    | Nil
    | Boolean(b: bool)
    | Integer(n: int)
    | Str(s: Id)
    | Array(elems: seq<Value>)
    | Other

  /** The top-level map `umsgpack.unpack` returns. */
  type State = map<Value, Value>

  /** Why `_parse_legacy_file` raises. */
  datatype LegacyError =
    | KeyNotRenamable  // a key that is not ASCII bytes while renaming (AttributeError, UnicodeDecodeError)
    | MissingKey       // KeyError
    | Incomparable     // TypeError comparing the version with an integer
    | NotAnIdList      // an `expect_xfail` that is not a list of strings

  // ---------------------------------------------------------------- renaming keys

  /** The key `b'py_version'` whose presence makes Python 3 rename every key. */
  const PY_VERSION_BYTES: Value := Str(Bytes(FieldName(PyVersionField)))

  /** `key.decode("ASCII")`: only ASCII byte strings have a new name. */
  function KeyName(k: Value): Option<Value>
  {
    match k
    case Str(Bytes(b)) => if IsAscii(b) then Some(Str(Text(Latin1Decode(b)))) else None
    case _ => None
  }

  /** Renaming never sends two keys to one name, and a new name is a text key. */
  lemma KeyNameInjective(k1: Value, k2: Value)
    requires KeyName(k1).Some? && KeyName(k1) == KeyName(k2)
    ensures k1 == k2
    ensures KeyName(k1).value.Str? && KeyName(k1).value.s.Text?
  {
    var b1 := k1.s.bytes;
    var b2 := k2.s.bytes;
    Latin1Inverse(Latin1Decode(b1), b1);
    Latin1Inverse(Latin1Decode(b2), b2);
  }

  lemma KeyNamesInjective()
    ensures forall k1, k2 :: KeyName(k1).Some? && KeyName(k1) == KeyName(k2) ==> k1 == k2
  {
    forall k1, k2 | KeyName(k1).Some? && KeyName(k1) == KeyName(k2) ensures k1 == k2 {
      KeyNameInjective(k1, k2);
    }
  }

  /** The entries of `done`, each under its new name. */
  function Renamed(state: State, done: set<Value>): map<Value, Value>
    requires forall k :: k in done ==> k in state && KeyName(k).Some?
  {
    KeyNamesInjective();
    map k | k in done :: KeyName(k).value := state[k]
  }

  /** What renaming all keys gives: an error as soon as one key has no new name. */
  function RenameKeys(state: State): Result<State, LegacyError>
  {
    if forall k :: k in state ==> KeyName(k).Some? then Ok(Renamed(state, state.Keys)) else Err(KeyNotRenamable)
  }

  /** A map holding every value of `state` under its key's new name, and nothing else, is the renamed map. */
  lemma RenamedUnique(state: State, s: State)
    requires forall k :: k in state ==> KeyName(k).Some? && KeyName(k).value in s && s[KeyName(k).value] == state[k]
    requires forall x :: x in s ==> exists k :: k in state && KeyName(k) == Some(x)
    ensures s == Renamed(state, state.Keys)
  {
    var r := Renamed(state, state.Keys);
    forall x | x in s ensures x in r && r[x] == s[x] {
      var k :| k in state && KeyName(k) == Some(x);
    }
    forall x | x in r ensures x in s {
      var k :| k in state && KeyName(k).value == x;
    }
  }

  /** The renaming loop of `_parse_legacy_file`, over a snapshot of the keys. */
  method RenameKeysInPlace(state: State) returns (r: Result<State, LegacyError>)
    ensures r == RenameKeys(state)
  {
    var s := state;
    var keys := state.Keys;
    while keys != {}
      invariant RenameProgress(state, s, keys)
      decreases |keys|
    {
      var k :| k in keys;
      var name := KeyName(k);
      if name.None? {
        return Err(KeyNotRenamable);
      }
      RenameStep(state, s, keys, k);
      s := s[name.value := s[k]];
      s := s - {k};
      keys := keys - {k};
    }
    RenamedUnique(state, s);
    return Ok(s);
  }

  /**
    The state of the renaming loop: the keys still to visit keep their
    values, every key visited is gone and its value is under its new name,
    and nothing else has been added.
   */
  ghost predicate RenameProgress(state: State, s: State, keys: set<Value>)
  {
    keys <= state.Keys &&
    (forall k :: k in keys && KeyName(k).Some? ==> k in s && s[k] == state[k]) &&
    (forall k :: k in state && k !in keys ==>
      KeyName(k).Some? && k !in s && KeyName(k).value in s && s[KeyName(k).value] == state[k]) &&
    (forall x :: x in s ==> x in keys || exists k :: k in state && k !in keys && KeyName(k) == Some(x))
  }

  /** One turn of the renaming loop keeps its state. */
  lemma RenameStep(state: State, s: State, keys: set<Value>, k: Value)
    requires RenameProgress(state, s, keys) && k in keys && KeyName(k).Some?
    ensures RenameProgress(state, s[KeyName(k).value := s[k]] - {k}, keys - {k})
  {
    KeyNamesInjective();
    KeyNameInjective(k, k);
  }

  /** Renaming succeeds exactly when every key is ASCII bytes, and then keeps every value under the key's new name. */
  lemma RenameKeysMeaning(state: State)
    ensures RenameKeys(state).Ok? <==> forall k :: k in state ==> KeyName(k).Some?
    ensures RenameKeys(state).Ok? ==>
      (forall k :: k in state ==> KeyName(k).value in RenameKeys(state).value &&
                                  RenameKeys(state).value[KeyName(k).value] == state[k]) &&
      (forall x :: x in RenameKeys(state).value ==> exists k :: k in state && KeyName(k) == Some(x))
  {
    if RenameKeys(state).Ok? {
      var r := Renamed(state, state.Keys);
      KeyNamesInjective();
      forall k | k in state ensures KeyName(k).value in r && r[KeyName(k).value] == state[k] {
        assert KeyName(k).value in r;
      }
      forall x | x in r ensures exists k :: k in state && KeyName(k) == Some(x) {
        var k :| k in state && KeyName(k).value == x;
      }
    }
  }

  // ---------------------------------------------------------------- the gate

  /** The three keys the gate reads. */
  datatype Field = VersionField | PyVersionField | ExpectXfailField

  /** A key's name, in ASCII: `version`, `py_version`, `expect_xfail`. */
  function FieldName(f: Field): (name: seq<Byte>)
    ensures IsAscii(name)
  {
    match f
    case VersionField => [0x76, 0x65, 0x72, 0x73, 0x69, 0x6F, 0x6E]
    case PyVersionField => [0x70, 0x79, 0x5F, 0x76, 0x65, 0x72, 0x73, 0x69, 0x6F, 0x6E]
    case ExpectXfailField => [0x65, 0x78, 0x70, 0x65, 0x63, 0x74, 0x5F, 0x78, 0x66, 0x61, 0x69, 0x6C]
  }

  /**
    `state[name]`, the name being a text literal of the source module
    (bytes under Python 2, text under Python 3). Under Python 2
    `'name' == u'name'`, so either kind of key answers there.
   */
  function Lookup(state: State, f: Field, reader: Major): Option<Value>
  {
    var bytes := Str(Bytes(FieldName(f)));
    var text := Str(Text(Latin1Decode(FieldName(f))));
    // A Python 2 dict cannot hold both keys, so the order of these tests matters only to the model.
    if reader == PY2 && bytes in state then Some(state[bytes])
    else if text in state then Some(state[text])
    else None
  }

  /** Where the stored format version falls. */
  datatype Band = TooOld | Supported | TooNew

  /**
    `version >= 0x0200`, then `version >= 0x0100`. Booleans compare as 0
    and 1. Python 2 orders `None` below every number and every other kind
    above; Python 3 refuses to compare them.
   */
  function VersionBand(v: Value, reader: Major): Result<Band, LegacyError>
  {
    match v
    case Integer(n) => Ok(if n >= 0x0200 then TooNew else if n >= 0x0100 then Supported else TooOld)
    case Boolean(_) => Ok(TooOld)
    case Nil => if reader == PY2 then Ok(TooOld) else Err(Incomparable)
    case _ => if reader == PY2 then Ok(TooNew) else Err(Incomparable)
  }

  /** The number `py_version == 2` and `py_version == 3` compare. */
  function PyMajor(v: Value): Option<int>
  {
    match v
    case Integer(n) => Some(n)
    case Boolean(b) => Some(if b then 1 else 0)
    case _ => None
  }

  /** The elements of `expect_xfail` in order, each added with its alternate. */
  function CollectIds(xs: seq<Value>, reader: Major, fileMajor: Option<int>): Result<set<Id>, LegacyError>
    decreases |xs|
  {
    if xs == [] then Ok({})
    else
      match CollectIds(xs[..|xs| - 1], reader, fileMajor)
      case Err(e) => Err(e)
      case Ok(s) =>
        match xs[|xs| - 1]
        case Str(id) => Ok(s + WithAlternate(id, reader, fileMajor))
        case _ => Err(NotAnIdList)
  }

  /** What a legacy file yields, and whether it warned about an unsupported version. */
  datatype Loaded = Loaded(ids: set<Id>, warned: bool)

  /** The map the gate reads: under Python 3, one holding `b'py_version'` has its keys renamed first. */
  function Keyed(state: State, reader: Major): Result<State, LegacyError>
  {
    if reader == PY3 && PY_VERSION_BYTES in state then RenameKeys(state) else Ok(state)
  }

  /** `_parse_legacy_file` after `umsgpack.unpack`. */
  function ParseLegacy(state: State, reader: Major): Result<Loaded, LegacyError>
  {
    var renamed := Keyed(state, reader);
    if renamed.Err? then Err(renamed.error)
    else
      var s := renamed.value;
      var version := Lookup(s, VersionField, reader);
      var pyVersion := Lookup(s, PyVersionField, reader);
      if version.None? || pyVersion.None? then Err(MissingKey)
      else
        match VersionBand(version.value, reader)
        case Err(e) => Err(e)
        case Ok(band) =>
          if band != Supported then Ok(Loaded({}, true))
          else
            var xfail := Lookup(s, ExpectXfailField, reader);
            if xfail.None? then Err(MissingKey)
            else if !xfail.value.Array? then Err(NotAnIdList)
            else
              match CollectIds(xfail.value.elems, reader, PyMajor(pyVersion.value))
              case Err(e) => Err(e)
              case Ok(ids) => Ok(Loaded(ids, false))
  }

  lemma CollectIdsStep(xs: seq<Value>, reader: Major, fileMajor: Option<int>, i: nat)
    requires i < |xs| && CollectIds(xs[..i], reader, fileMajor).Ok?
    ensures !xs[i].Str? ==> CollectIds(xs[..i + 1], reader, fileMajor) == Err(NotAnIdList)
    ensures xs[i].Str? ==>
      CollectIds(xs[..i + 1], reader, fileMajor) ==
      Ok(CollectIds(xs[..i], reader, fileMajor).value + WithAlternate(xs[i].s, reader, fileMajor))
  {
    assert xs[..i + 1][..i] == xs[..i];
  }

  lemma {:induction false} CollectIdsStops(xs: seq<Value>, reader: Major, fileMajor: Option<int>, j: nat)
    requires j <= |xs| && CollectIds(xs[..j], reader, fileMajor).Err?
    ensures CollectIds(xs, reader, fileMajor) == CollectIds(xs[..j], reader, fileMajor)
    decreases |xs| - j
  {
    if j < |xs| {
      assert xs[..j + 1][..j] == xs[..j];
      CollectIdsStops(xs, reader, fileMajor, j + 1);
    } else {
      assert xs[..j] == xs;
    }
  }

  /** The loop over `expect_xfail`. */
  method CollectIdsLoop(xs: seq<Value>, reader: Major, fileMajor: Option<int>) returns (r: Result<set<Id>, LegacyError>)
    ensures r == CollectIds(xs, reader, fileMajor)
  {
    var fails: set<Id> := {};
    var i := 0;
    while i < |xs|
      invariant 0 <= i <= |xs|
      invariant CollectIds(xs[..i], reader, fileMajor) == Ok(fails)
    {
      CollectIdsStep(xs, reader, fileMajor, i);
      if !xs[i].Str? {
        CollectIdsStops(xs, reader, fileMajor, i + 1);
        return Err(NotAnIdList);
      }
      var s := xs[i].s;
      fails := AddWithAlternate(fails, s, reader, fileMajor);
      i := i + 1;
    }
    assert xs[..i] == xs;
    return Ok(fails);
  }

  /** `_parse_legacy_file`, renaming keys in place and reading the list in a loop. */
  method LoadLegacy(state: State, reader: Major) returns (r: Result<Loaded, LegacyError>)
    ensures r == ParseLegacy(state, reader)
  {
    var s := state;
    if reader == PY3 && PY_VERSION_BYTES in state {
      var renamed := RenameKeysInPlace(state);
      if renamed.Err? {
        return Err(renamed.error);
      }
      s := renamed.value;
    }
    var version := Lookup(s, VersionField, reader);
    var pyVersion := Lookup(s, PyVersionField, reader);
    if version.None? || pyVersion.None? {
      return Err(MissingKey);
    }
    var band := VersionBand(version.value, reader);
    if band.Err? {
      return Err(band.error);
    }
    if band.value != Supported {
      return Ok(Loaded({}, true));
    }
    var xfail := Lookup(s, ExpectXfailField, reader);
    if xfail.None? {
      return Err(MissingKey);
    }
    if !xfail.value.Array? {
      return Err(NotAnIdList);
    }
    var ids := CollectIdsLoop(xfail.value.elems, reader, PyMajor(pyVersion.value));
    if ids.Err? {
      return Err(ids.error);
    }
    return Ok(Loaded(ids.value, false));
  }

  // ---------------------------------------------------------------- properties

  /** The ids `expect_xfail` lists. */
  ghost function ListedIds(xs: seq<Value>): set<Id>
  {
    set i | 0 <= i < |xs| && xs[i].Str? :: xs[i].s
  }

  lemma ListedIdsSnoc(xs: seq<Value>)
    requires xs != [] && xs[|xs| - 1].Str?
    ensures ListedIds(xs) == ListedIds(xs[..|xs| - 1]) + {xs[|xs| - 1].s}
  {
    var n := |xs| - 1;
    var init := xs[..n];
    forall x | x in ListedIds(xs) ensures x in ListedIds(init) + {xs[n].s} {
      var i :| 0 <= i < |xs| && xs[i].Str? && xs[i].s == x;
      if i < n {
        assert init[i] == xs[i];
      }
    }
    forall x | x in ListedIds(init) ensures x in ListedIds(xs) {
      var i :| 0 <= i < |init| && init[i].Str? && init[i].s == x;
      assert init[i] == xs[i];
    }
  }

  /**
    The list reads without error exactly when every element is a string,
    and the set read is those strings together with their alternates.
   */
  lemma {:induction false} CollectIdsMeaning(xs: seq<Value>, reader: Major, fileMajor: Option<int>)
    ensures CollectIds(xs, reader, fileMajor).Ok? <==> forall i :: 0 <= i < |xs| ==> xs[i].Str?
    ensures CollectIds(xs, reader, fileMajor).Ok? ==>
      CollectIds(xs, reader, fileMajor).value == Expanded(ListedIds(xs), reader, fileMajor)
  {
    CollectIdsOk(xs, reader, fileMajor);
    if forall i :: 0 <= i < |xs| ==> xs[i].Str? {
      CollectIdsValue(xs, reader, fileMajor);
    }
  }

  lemma {:induction false} CollectIdsOk(xs: seq<Value>, reader: Major, fileMajor: Option<int>)
    ensures CollectIds(xs, reader, fileMajor).Ok? <==> forall i :: 0 <= i < |xs| ==> xs[i].Str?
    decreases |xs|
  {
    if xs != [] {
      var n := |xs| - 1;
      var init := xs[..n];
      CollectIdsOk(init, reader, fileMajor);
      assert forall i :: 0 <= i < n ==> init[i] == xs[i];
      if CollectIds(init, reader, fileMajor).Err? {
        var i :| 0 <= i < n && !init[i].Str?;
        assert !xs[i].Str?;
      }
    }
  }

  lemma {:induction false} CollectIdsValue(xs: seq<Value>, reader: Major, fileMajor: Option<int>)
    requires forall i :: 0 <= i < |xs| ==> xs[i].Str?
    ensures CollectIds(xs, reader, fileMajor) == Ok(Expanded(ListedIds(xs), reader, fileMajor))
    decreases |xs|
  {
    if xs == [] {
      assert ListedIds(xs) == {};
      assert Expanded({}, reader, fileMajor) == {};
    } else {
      var n := |xs| - 1;
      var init := xs[..n];
      assert forall i :: 0 <= i < n ==> init[i] == xs[i];
      CollectIdsValue(init, reader, fileMajor);
      ListedIdsSnoc(xs);
      ExpandedAdd(ListedIds(init), xs[n].s, reader, fileMajor);
    }
  }

  /**
    The version gate on an integer version: outside [0x0100, 0x0200) the
    file warns and yields nothing; inside, it yields exactly the listed ids
    with their alternates, provided `expect_xfail` is a list of strings.
   */
  lemma LegacyVersionGate(state: State, reader: Major, n: int)
    requires Keyed(state, reader).Ok?
    requires Lookup(Keyed(state, reader).value, VersionField, reader) == Some(Integer(n))
    requires Lookup(Keyed(state, reader).value, PyVersionField, reader).Some?
    ensures !(0x0100 <= n < 0x0200) ==> ParseLegacy(state, reader) == Ok(Loaded({}, true))
    ensures 0x0100 <= n < 0x0200 ==>
      var s := Keyed(state, reader).value;
      var xfail := Lookup(s, ExpectXfailField, reader);
      (ParseLegacy(state, reader).Ok? <==>
        xfail.Some? && xfail.value.Array? && forall i :: 0 <= i < |xfail.value.elems| ==> xfail.value.elems[i].Str?) &&
      (ParseLegacy(state, reader).Ok? ==>
        ParseLegacy(state, reader) ==
          Ok(Loaded(Expanded(ListedIds(xfail.value.elems), reader,
                             PyMajor(Lookup(s, PyVersionField, reader).value)), false)))
  {
    if 0x0100 <= n < 0x0200 {
      var s := Keyed(state, reader).value;
      var xfail := Lookup(s, ExpectXfailField, reader);
      var fm := PyMajor(Lookup(s, PyVersionField, reader).value);
      SupportedGate(state, reader);
      if xfail.Some? && xfail.value.Array? {
        CollectIdsMeaning(xfail.value.elems, reader, fm);
      }
    }
  }

  /** A supported version leaves the rest to `expect_xfail`. */
  lemma SupportedGate(state: State, reader: Major)
    requires Keyed(state, reader).Ok?
    requires Lookup(Keyed(state, reader).value, VersionField, reader).Some?
    requires VersionBand(Lookup(Keyed(state, reader).value, VersionField, reader).value, reader) == Ok(Supported)
    requires Lookup(Keyed(state, reader).value, PyVersionField, reader).Some?
    ensures var s := Keyed(state, reader).value;
      var xfail := Lookup(s, ExpectXfailField, reader);
      ParseLegacy(state, reader) ==
        if xfail.None? then Err(MissingKey)
        else if !xfail.value.Array? then Err(NotAnIdList)
        else
          var ids := CollectIds(xfail.value.elems, reader, PyMajor(Lookup(s, PyVersionField, reader).value));
          if ids.Err? then Err(ids.error) else Ok(Loaded(ids.value, false))
  {
  }

  /** After renaming, a Python 3 lookup by text name finds what was stored under the byte key. */
  lemma RenamedLookup(state: State, f: Field)
    requires RenameKeys(state).Ok? && Str(Bytes(FieldName(f))) in state
    ensures Lookup(RenameKeys(state).value, f, PY3) == Some(state[Str(Bytes(FieldName(f)))])
  {
    RenameKeysMeaning(state);
  }
}
