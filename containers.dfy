/** src/numbers_parser/containers.py: `ItemsList`, the list of sheets or tables a document
    exposes, indexed by position or by name; and `ObjectStore`, every protobuf object of a
    document by identifier, with the IWA file each lives in and the allocation of new
    identifiers. Reading the package from disk is left to the caller, which hands the store the
    files and objects it found. */
module Containers {
  import opened Outcomes
  import Text
  import Decimal
  import Iwa

  // ---- ItemsList ----

  /** A key passed to `ItemsList[...]`, by its Python type. A `bool` is an `int` to
      `isinstance`, as False and True are 0 and 1. */
  datatype Key = IntKey(i: int) | BoolKey(b: bool) | StrKey(s: string) | OtherKey

  /** A sheet or a table as the list sees it: its name and the identifier of its archive. */
  datatype Item = Item(name: string, ref: nat)

  /** The first item called `name`; a KeyError when there is none. */
  function FindNamed(items: seq<Item>, name: string): (r: Result<Item>)
    ensures r.Ok? <==> exists k :: 0 <= k < |items| && items[k].name == name
    ensures r.Ok? ==> exists k :: (0 <= k < |items| && items[k] == r.value && r.value.name == name
                                  && forall j :: 0 <= j < k ==> items[j].name != name)
    ensures r.Err? ==> r.error == KeyError
  {
    if items == [] then Err(KeyError)
    else if items[0].name == name then Ok(items[0])
    else
      var r := FindNamed(items[1..], name);
      assert forall k :: 1 <= k < |items| ==> items[k] == items[1..][k - 1];
      if r.Ok? then
        ghost var k :| 0 <= k < |items[1..]| && items[1..][k] == r.value && r.value.name == name
          && forall j :: 0 <= j < k ==> items[1..][j].name != name;
        assert items[k + 1] == r.value;
        r
      else r
  }

  /** `ItemsList.__getitem__` with an int key as written: a negative key has the length added
      once, a key then at or past the end is an IndexError, and the rest goes to Python's list
      indexing, which counts a still-negative key from the end a second time. */
  function IndexAsWritten(items: seq<Item>, key: int): Result<Item>
  {
    var n := |items|;
    var k := if key < 0 then key + n else key;
    if k >= n then Err(IndexError)
    else if k >= 0 then Ok(items[k])
    else if k >= -n then Ok(items[k + n])
    else Err(IndexError)
  }

  /** `ItemsList.__getitem__` with an int key as intended: Python's indexing, where -1 is the
      last item and a key outside [-len, len) is an IndexError. */
  function Index(items: seq<Item>, key: int): (r: Result<Item>)
    ensures r.Ok? <==> -|items| <= key < |items|
    ensures r.Err? ==> r.error == IndexError
    ensures r.Ok? && key >= 0 ==> r.value == items[key]
    ensures r.Ok? && key < 0 ==> r.value == items[|items| + key]
  {
    if key < -|items| || key >= |items| then Err(IndexError)
    else if key < 0 then Ok(items[key + |items|])
    else Ok(items[key])
  }

  /** For keys from -len on, the code as written is the intended indexing. */
  lemma IndexAsWrittenAgrees(items: seq<Item>, key: int)
    requires key >= -|items|
    ensures IndexAsWritten(items, key) == Index(items, key)
  {
  }

  /** Below -len it is not: with three sheets, `sheets[-4]` is the last sheet rather than an
      IndexError, because -4 + 3 = -1 is indexed from the end once more. */
  lemma IndexAsWrittenWrapsTwice(a: Item, b: Item, c: Item)
    ensures IndexAsWritten([a, b, c], -4) == Ok(c)
    ensures Index([a, b, c], -4) == Err(IndexError)
  {
  }

  /** `ItemsList.__getitem__`: ints (and bools) by position, strings by first matching name,
      anything else a LookupError. */
  function GetItem(items: seq<Item>, key: Key): (r: Result<Item>)
    ensures key.OtherKey? <==> r == Err(LookupError)
    ensures key.StrKey? ==> r == FindNamed(items, key.s)
    ensures key.IntKey? ==> r == Index(items, key.i)
    ensures key.BoolKey? ==> r == Index(items, if key.b then 1 else 0)
  {
    match key
    case IntKey(i) => Index(items, i)
    case BoolKey(b) => Index(items, if b then 1 else 0)
    case StrKey(s) => FindNamed(items, s)
    case OtherKey => Err(LookupError)
  }

  /** Some item's name equals `key` once both are lower-cased. */
  function HasName(items: seq<Item>, key: string): (r: bool)
    ensures r <==> exists k :: 0 <= k < |items| && Text.Lower(items[k].name) == Text.Lower(key)
  {
    if items == [] then false
    else if Text.Lower(items[0].name) == Text.Lower(key) then true
    else
      assert forall k :: 1 <= k < |items| ==> items[k] == items[1..][k - 1];
      HasName(items[1..], key)
  }

  /** Every name that looks up an item is contained in the list, and containment ignores case. */
  lemma ContainsFindable(items: seq<Item>, key: string)
    ensures FindNamed(items, key).Ok? ==> HasName(items, key)
    ensures HasName(items, key) == HasName(items, Text.Lower(key))
  {
    LowerIdempotent(key);
  }

  lemma LowerIdempotent(s: string)
    ensures Text.Lower(Text.Lower(s)) == Text.Lower(s)
  {
    var l := Text.Lower(s);
    assert forall k :: 0 <= k < |s| ==> Text.Lower(l)[k] == l[k];
  }

  /** A document's sheets or a sheet's tables. */
  class ItemsList {
    /** The item class's name in lower case, used in error messages. */
    var itemName: string
    var items: seq<Item>

    constructor (className: string, items: seq<Item>)
      ensures this.itemName == Text.Lower(className) && this.items == items
    {
      this.itemName := Text.Lower(className);
      this.items := items;
    }

    /** `__getitem__` */
    function Get(key: Key): (r: Result<Item>)
      reads this
      ensures r == GetItem(items, key)
    {
      GetItem(items, key)
    }

    /** `__contains__` */
    function Has(key: string): (r: bool)
      reads this
      ensures r <==> exists k :: 0 <= k < |items| && Text.Lower(items[k].name) == Text.Lower(key)
    {
      HasName(items, key)
    }

    /** `append` */
    method Append(item: Item)
      modifies this
      ensures items == old(items) + [item] && itemName == old(itemName)
    {
      items := items + [item];
    }
  }

  // ---- ObjectStore ----

  /** The identifier of the document's package metadata object. */
  const PackageId: nat := 2

  /** New identifiers start after the largest one loaded, rounded up to a multiple of this. */
  const IdBlock: nat := 1000000

  /** `math.ceil(m / 1000000) * 1000000`: the least multiple of a million not below `m`. */
  function RoundUpToBlock(m: nat): (r: nat)
    ensures r % IdBlock == 0 && m <= r < m + IdBlock
  {
    ((m + IdBlock - 1) / IdBlock) * IdBlock
  }

  /** The identifiers of the objects a reader reports. */
  function StoredIds(stored: seq<(nat, Iwa.Message, string)>): set<nat>
  {
    if stored == [] then {} else StoredIds(stored[..|stored| - 1]) + {stored[|stored| - 1].0}
  }

  /** An identifier is among them exactly when some reported object carries it. */
  lemma {:induction false} StoredIdsMeaning(stored: seq<(nat, Iwa.Message, string)>)
    ensures forall i :: i in StoredIds(stored) <==> exists k :: 0 <= k < |stored| && stored[k].0 == i
  {
    if stored != [] {
      var front := stored[..|stored| - 1];
      StoredIdsMeaning(front);
      forall i | i in StoredIds(stored)
        ensures exists k :: 0 <= k < |stored| && stored[k].0 == i
      {
        if i in StoredIds(front) {
          var k :| 0 <= k < |front| && front[k].0 == i;
          assert stored[k].0 == i;
        } else {
          assert stored[|stored| - 1].0 == i;
        }
      }
      forall i, k | 0 <= k < |stored| && stored[k].0 == i
        ensures i in StoredIds(stored)
      {
        if k < |front| {
          assert front[k].0 == i;
        }
      }
    }
  }

  /** The largest identifier of a non-empty list. */
  function MaxId(ids: seq<nat>): (m: nat)
    requires ids != []
    ensures m in ids && forall i :: i in ids ==> i <= m
  {
    if |ids| == 1 then ids[0]
    else
      var rest := MaxId(ids[1..]);
      assert forall i :: i in ids ==> i == ids[0] || i in ids[1..];
      if ids[0] >= rest then ids[0] else rest
  }

  /** `type(v).__name__`: a message class's name without its package, the text after the
      last '.' of its full type name. */
  function ShortName(typeName: string): (r: string)
    ensures forall k :: 0 <= k < |r| ==> r[k] != '.'
  {
    var parts := Text.Split(typeName, '.');
    parts[|parts| - 1]
  }

  /** The fields of a message with field `name` set to `v`: the first field of that name gets
      the new value, or the field is added at the end. */
  function FieldsWith(fs: seq<Iwa.Field>, name: string, v: Iwa.Value): seq<Iwa.Field>
  {
    if fs == [] then [Iwa.Field(name, v)]
    else if fs[0].name == name then [Iwa.Field(name, v)] + fs[1..]
    else [fs[0]] + FieldsWith(fs[1..], name, v)
  }

  /** Setting an attribute of a protobuf message: reading it back gives the new value. */
  function WithField(m: Iwa.Message, name: string, v: Iwa.Value): (r: Iwa.Message)
    ensures r.typeName == m.typeName && r.extensions == m.extensions
    ensures Iwa.Attr(r, name) == Some(v)
  {
    AttrOfFieldsWith(m.typeName, m.fields, m.extensions, name, v);
    Iwa.Message(m.typeName, FieldsWith(m.fields, name, v), m.extensions)
  }

  lemma {:induction false} AttrOfFieldsWith(t: string, fs: seq<Iwa.Field>, es: seq<Iwa.Message>, name: string, v: Iwa.Value)
    ensures Iwa.Attr(Iwa.Message(t, FieldsWith(fs, name, v), es), name) == Some(v)
  {
    if fs != [] && fs[0].name != name {
      AttrOfFieldsWith(t, fs[1..], es, name, v);
      assert FieldsWith(fs, name, v)[1..] == FieldsWith(fs[1..], name, v);
    }
  }

  /** The first path, in insertion order, that contains `part`. */
  function FirstContaining(paths: seq<string>, part: string): (r: Option<string>)
    ensures r.Some? ==> r.value in paths && Text.Contains(r.value, part)
    ensures r.None? <==> forall k :: 0 <= k < |paths| ==> !Text.Contains(paths[k], part)
  {
    if paths == [] then None
    else if Text.Contains(paths[0], part) then Some(paths[0])
    else
      assert forall k :: 1 <= k < |paths| ==> paths[k] == paths[1..][k - 1];
      FirstContaining(paths[1..], part)
  }

  /** `template.format(id)` for the templates the model passes: a template without braces is
      kept, the first `{}` becomes the decimal identifier, and any other brace is reported as
      a ValueError. */
  function FormatId(template: string, id: nat): Result<string>
  {
    FormatFrom(template, Decimal.DecimalString(id), false)
  }

  function FormatFrom(t: string, arg: string, used: bool): Result<string>
  {
    if t == [] then Ok([])
    else if t[0] == '{' && |t| >= 2 && t[1] == '}' && !used then
      var rest :- FormatFrom(t[2..], arg, true);
      Ok(arg + rest)
    else if t[0] == '{' || t[0] == '}' then Err(ValueError)
    else
      var rest :- FormatFrom(t[1..], arg, used);
      Ok([t[0]] + rest)
  }

  predicate NoBraces(s: string)
  {
    forall k :: 0 <= k < |s| ==> s[k] != '{' && s[k] != '}'
  }

  /** The template "a{}b" becomes a, the identifier in decimal, b; a template without braces
      comes back unchanged. */
  lemma FormatFills(a: string, b: string, id: nat)
    requires NoBraces(a) && NoBraces(b)
    ensures FormatId(a + "{}" + b, id) == Ok(a + Decimal.DecimalString(id) + b)
    ensures FormatId(a, id) == Ok(a)
  {
    FormatFillsArg(a, b, Decimal.DecimalString(id));
  }

  lemma FormatFillsArg(a: string, b: string, arg: string)
    requires NoBraces(a) && NoBraces(b)
    ensures FormatFrom(a + "{}" + b, arg, false) == Ok(a + arg + b)
    ensures FormatFrom(a, arg, false) == Ok(a)
  {
    FormatPlain(a, arg, false);
    FormatBraces(b, arg);
    FormatPrefix(a, "{}" + b, arg, false);
    assert a + "{}" + b == a + ("{}" + b);
    assert a + (arg + b) == a + arg + b;
  }

  lemma FormatBraces(b: string, arg: string)
    requires NoBraces(b)
    ensures FormatFrom("{}" + b, arg, false) == Ok(arg + b)
  {
    FormatPlain(b, arg, true);
    assert ("{}" + b)[2..] == b;
  }

  lemma {:induction false} FormatPlain(s: string, arg: string, used: bool)
    requires NoBraces(s)
    ensures FormatFrom(s, arg, used) == Ok(s)
  {
    if s != [] {
      assert forall k :: 0 <= k < |s[1..]| ==> s[1..][k] == s[k + 1];
      FormatPlain(s[1..], arg, used);
      assert [s[0]] + s[1..] == s;
    }
  }

  lemma {:induction false} FormatPrefix(a: string, b: string, arg: string, used: bool)
    requires NoBraces(a)
    ensures FormatFrom(a + b, arg, used) == (var r :- FormatFrom(b, arg, used); Ok(a + r))
  {
    if a != [] {
      assert (a + b)[1..] == a[1..] + b;
      assert forall k :: 0 <= k < |a[1..]| ==> a[1..][k] == a[k + 1];
      FormatPrefix(a[1..], b, arg, used);
      var r := FormatFrom(b, arg, used);
      if r.Ok? {
        assert [a[0]] + (a[1..] + r.value) == a + r.value;
      }
    } else {
      var r := FormatFrom(b, arg, used);
      if r.Ok? {
        assert a + r.value == r.value;
      }
      assert a + b == b;
    }
  }

  /** No element is listed twice. */
  predicate Distinct<T(==)>(s: seq<T>)
  {
    forall i, j :: 0 <= i < j < |s| ==> s[i] != s[j]
  }

  /** `find_refs` on a dict in insertion order: the identifiers whose object's class name is
      `refName`, in order. */
  function FilterRefs(order: seq<nat>, objects: map<nat, Iwa.Message>, refName: string): (r: seq<nat>)
    requires forall i :: i in order ==> i in objects
    ensures forall i :: i in r <==> i in order && ShortName(objects[i].typeName) == refName
    ensures |r| <= |order|
  {
    if order == [] then []
    else
      var rest := FilterRefs(order[1..], objects, refName);
      if ShortName(objects[order[0]].typeName) == refName then [order[0]] + rest else rest
  }

  /** The document's objects, in the order they were stored, with the IWA file of each. */
  class ObjectStore {
    var objects: map<nat, Iwa.Message>
    /** The keys of `objects` in insertion order, as the dict iterates them. */
    var order: seq<nat>
    /** Each IWA file's chunks, each chunk its archive segments. */
    var files: map<string, seq<seq<Iwa.ArchiveSegment>>>
    /** The keys of `files` in insertion order. */
    var paths: seq<string>
    var fileOf: map<nat, string>
    var maxId: nat

    /** The two dicts and their iteration orders agree. */
    ghost predicate Ordered()
      reads this
    {
      (forall i :: i in objects <==> i in order) && Distinct(order)
      && (forall p :: p in files <==> p in paths) && Distinct(paths)
    }

    /** ... and no stored identifier is above the last one handed out. */
    ghost predicate Valid()
      reads this
    {
      Ordered() && forall i :: i in objects ==> i <= maxId
    }

    constructor Empty()
      ensures Ordered() && objects == map[] && files == map[] && fileOf == map[]
    {
      objects, order, files, paths, fileOf, maxId := map[], [], map[], [], map[], 0;
    }

    /** `_store_file` */
    method StoreFile(name: string, chunks: seq<seq<Iwa.ArchiveSegment>>)
      requires Ordered()
      modifies this
      ensures Ordered()
      ensures files == old(files)[name := chunks]
      ensures paths == if name in old(files) then old(paths) else old(paths) + [name]
      ensures objects == old(objects) && order == old(order) && fileOf == old(fileOf) && maxId == old(maxId)
    {
      if name !in files {
        paths := paths + [name];
      }
      files := files[name := chunks];
    }

    /** `_store_object` */
    method StoreObject(id: nat, obj: Iwa.Message, fileName: string)
      requires Ordered()
      modifies this
      ensures Ordered()
      ensures objects == old(objects)[id := obj] && fileOf == old(fileOf)[id := fileName]
      ensures order == if id in old(objects) then old(order) else old(order) + [id]
      ensures files == old(files) && paths == old(paths) && maxId == old(maxId)
    {
      if id !in objects {
        order := order + [id];
      }
      objects := objects[id := obj];
      fileOf := fileOf[id := fileName];
    }

    /** `ObjectStore.__init__` after the package is read: the files and objects found, stored
      in the order the reader reports them, then the first free identifier block. An empty
      package has no largest identifier: a ValueError. */
    static method Load(found: seq<(string, seq<seq<Iwa.ArchiveSegment>>)>, stored: seq<(nat, Iwa.Message, string)>)
      returns (r: Result<ObjectStore>)
      ensures r.Err? <==> stored == []
      ensures r.Err? ==> r.error == ValueError
      ensures r.Ok? ==> fresh(r.value) && r.value.Valid()
      ensures r.Ok? ==> forall i :: i in r.value.objects <==> exists k :: 0 <= k < |stored| && stored[k].0 == i
      ensures r.Ok? ==> r.value.maxId % IdBlock == 0
    {
      var store := new ObjectStore.Empty();
      var k := 0;
      while k < |found|
        invariant 0 <= k <= |found| && store.Ordered() && store.objects == map[]
        modifies store
      {
        store.StoreFile(found[k].0, found[k].1);
        k := k + 1;
      }
      k := 0;
      while k < |stored|
        invariant 0 <= k <= |stored| && store.Ordered()
        invariant store.objects.Keys == StoredIds(stored[..k])
        modifies store
      {
        store.StoreObject(stored[k].0, stored[k].1, stored[k].2);
        assert stored[..k + 1][..k] == stored[..k];
        k := k + 1;
      }
      assert stored[..k] == stored;
      StoredIdsMeaning(stored);
      if stored != [] {
        assert stored[|stored| - 1].0 in store.objects;
      }
      if store.order == [] {
        return Err(ValueError);
      }
      store.maxId := RoundUpToBlock(MaxId(store.order));
      return Ok(store);
    }

    /** `new_message_id`: the next identifier, recorded as the package's
        `last_object_identifier`. The counter moves even when the package object is missing,
        which is a KeyError. */
    method NewMessageId() returns (r: Result<nat>)
      requires Valid()
      modifies this
      ensures Valid() && maxId == old(maxId) + 1
      ensures r.Ok? <==> PackageId in old(objects)
      ensures r.Err? ==> r.error == KeyError && objects == old(objects)
      ensures r.Ok? ==> r.value == maxId && r.value !in old(objects)
      ensures r.Ok? ==> objects == old(objects)[PackageId := WithField(old(objects)[PackageId], "last_object_identifier", Iwa.Scalar(maxId))]
      ensures order == old(order) && files == old(files) && paths == old(paths) && fileOf == old(fileOf)
    {
      maxId := maxId + 1;
      if PackageId !in objects {
        return Err(KeyError);
      }
      objects := objects[PackageId := WithField(objects[PackageId], "last_object_identifier", Iwa.Scalar(maxId))];
      return Ok(maxId);
    }

    /** `create_object_from_dict`: allocates an identifier, builds the object's archive segment,
        and files it in the first IWA file whose path contains `iwaFile`; when none does, a new
        file named by the template holds a copy of the segment read back from its dict form.
        The object is stored under the new identifier, mapped to that file. */
    method CreateObjectFromDict(iwaFile: string, obj: Iwa.Message, nameIds: map<string, nat>)
      returns (r: Result<(nat, Iwa.Message)>, ghost added: Iwa.ArchiveSegment?)
      requires Valid()
      modifies this
      ensures Valid()
      ensures r.Ok? ==> r.value.0 == maxId == old(maxId) + 1 && r.value.0 !in old(objects)
      ensures r.Ok? ==> r.value.1 == obj && r.value.0 in objects && objects[r.value.0] == obj
      ensures r.Ok? ==> order == old(order) + [r.value.0] && r.value.0 in fileOf && fileOf[r.value.0] in files
      ensures r.Ok? && FirstContaining(old(paths), iwaFile).Some? ==>
        fileOf[r.value.0] == FirstContaining(old(paths), iwaFile).value && paths == old(paths)
      ensures r.Ok? && FirstContaining(old(paths), iwaFile).Some? ==>
        var f := FirstContaining(old(paths), iwaFile).value;
        obj.typeName in nameIds && old(files)[f] != [] && added != null
        && files == old(files)[f := old(files)[f][0 := old(files)[f][0] + [added]]]
        && added.objects == [obj]
        && added.header == Iwa.ArchiveInfo(r.value.0, [Iwa.MessageInfo(nameIds[obj.typeName], [1, 0, 5], 0, [])], false)
      ensures (PackageId in old(objects) && obj.typeName in nameIds && FirstContaining(old(paths), iwaFile).Some?
               && old(files)[FirstContaining(old(paths), iwaFile).value] == []) ==> r == Err(IndexError)
      ensures r.Ok? && FirstContaining(old(paths), iwaFile).None? ==>
        (var name := FormatId(iwaFile, r.value.0); name.Ok? && fileOf[r.value.0] == name.value + ".iwa")
      ensures PackageId !in old(objects) ==> r == Err(KeyError)
    {
      added := null;
      var existing := FirstContaining(paths, iwaFile);
      var id :- NewMessageId();
      var segment :- Iwa.CreateIwaSegment(id, obj, nameIds);
      var fileName: string;
      if existing.None? {
        var name :- FormatId(iwaFile, id);
        fileName := name + ".iwa";
        var copy := new Iwa.ArchiveSegment(Iwa.DictToHeader(Iwa.HeaderToDict(segment.header)), segment.objects);
        StoreFile(fileName, [[copy]]);
      } else {
        fileName := existing.value;
        var appended := AppendSegment(fileName, segment);
        if !appended {
          return Err(IndexError), null;
        }
        added := segment;
      }
      StoreObject(id, obj, fileName);
      return Ok((id, obj)), added;
    }

    /** Adds a segment to the first chunk of a stored file; a file without chunks takes none
        (`chunks[0]` is an IndexError). */
    method AppendSegment(fileName: string, segment: Iwa.ArchiveSegment) returns (appended: bool)
      requires Valid() && fileName in files
      modifies this
      ensures Valid() && fileName in files
      ensures appended <==> old(files)[fileName] != []
      ensures appended ==> files == old(files)[fileName := old(files)[fileName][0 := old(files)[fileName][0] + [segment]]]
      ensures !appended ==> files == old(files)
      ensures objects == old(objects) && order == old(order) && paths == old(paths)
      ensures fileOf == old(fileOf) && maxId == old(maxId)
    {
      var chunks := files[fileName];
      if chunks == [] {
        return false;
      }
      files := files[fileName := chunks[0 := chunks[0] + [segment]]];
      return true;
    }

    /** `__getitem__` */
    function Get(id: nat): (r: Result<Iwa.Message>)
      reads this
      ensures r.Ok? <==> id in objects
      ensures r.Ok? ==> r.value == objects[id]
      ensures r.Err? ==> r.error == KeyError
    {
      if id in objects then Ok(objects[id]) else Err(KeyError)
    }

    /** `find_refs`: the identifiers, in insertion order, of the objects whose class is called
        `refName`. */
    function FindRefs(refName: string): (r: seq<nat>)
      reads this
      requires Ordered()
      ensures forall i :: i in r <==> i in objects && ShortName(objects[i].typeName) == refName
      ensures Distinct(r)
    {
      FilterDistinct(order, objects, refName);
      FilterRefs(order, objects, refName)
    }
  }

  lemma {:induction false} FilterDistinct(order: seq<nat>, objects: map<nat, Iwa.Message>, refName: string)
    requires forall i :: i in order ==> i in objects
    requires Distinct(order)
    ensures Distinct(FilterRefs(order, objects, refName))
  {
    if order != [] {
      assert forall i :: i in order[1..] ==> i in order;
      FilterDistinct(order[1..], objects, refName);
      assert order[0] !in order[1..];
    }
  }
}
