/** The first-generation numbers_parser package: numbers_parser/items_list.py and the
    `ItemsList` and `ObjectStore` of numbers_parser/containers.py. Its `ItemsList` takes no
    negative indices, and its store keeps only archives that hold exactly one object. */
module LegacyContainers {
  import opened Outcomes
  import Iwa
  import C = Containers

  /** `ItemsList.__getitem__` (the two files hold the same class): an `int` key must lie in
      [0, len) or it is an IndexError; a `str` key finds the first item of that name or is a
      KeyError; any other type, `bool` included since `type(True)` is not `int`, is a
      LookupError. */
  function GetItem(items: seq<C.Item>, key: C.Key): (r: Result<C.Item>)
    ensures key.IntKey? ==> (r.Ok? <==> 0 <= key.i < |items|)
    ensures key.IntKey? && r.Ok? ==> r.value == items[key.i]
    ensures key.IntKey? && r.Err? ==> r.error == IndexError
    ensures key.StrKey? ==> r == C.FindNamed(items, key.s)
    ensures key.BoolKey? || key.OtherKey? <==> r == Err(LookupError)
  {
    match key
    case IntKey(i) => if i < 0 || i >= |items| then Err(IndexError) else Ok(items[i])
    case StrKey(s) => C.FindNamed(items, s)
    case _ => Err(LookupError)
  }

  /** On non-negative ints and on strings the two generations agree; on a negative int the
      first generation always refuses. */
  lemma GenerationsAgree(items: seq<C.Item>, key: C.Key)
    ensures key.IntKey? && key.i >= 0 ==> GetItem(items, key) == C.GetItem(items, key)
    ensures key.StrKey? ==> GetItem(items, key) == C.GetItem(items, key)
    ensures key.IntKey? && key.i < 0 ==> GetItem(items, key) == Err(IndexError)
  {
  }

  /** An archive as the first-generation codec decodes it: its identifier and objects. */
  datatype Archive = Archive(identifier: nat, objects: seq<Iwa.Message>)

  /** The objects kept so far, and their keys in insertion order. */
  datatype Stored = Stored(objects: map<nat, Iwa.Message>, order: seq<nat>)

  /** The archive at `k` is refused: it holds no object, or its identifier is already
      stored, either before this file or by an earlier one-object archive of it. */
  predicate RejectedAt(archives: seq<Archive>, known: set<nat>, k: nat)
    requires k < |archives|
  {
    |archives[k].objects| == 0
    || archives[k].identifier in known
    || exists j :: 0 <= j < k && |archives[j].objects| == 1 && archives[j].identifier == archives[k].identifier
  }

  /** The inner loop of `ObjectStore.__init__` over one chunk's archives. */
  function AddArchives(archives: seq<Archive>, acc: Stored): (r: Result<Stored>)
    ensures r.Err? <==> exists k :: 0 <= k < |archives| && RejectedAt(archives, acc.objects.Keys, k)
    ensures r.Err? ==> r.error == FileFormatError
    ensures r.Ok? ==> forall id :: id in acc.objects ==> id in r.value.objects && r.value.objects[id] == acc.objects[id]
    ensures r.Ok? ==> forall k :: 0 <= k < |archives| && |archives[k].objects| == 1 ==>
      archives[k].identifier in r.value.objects && r.value.objects[archives[k].identifier] == archives[k].objects[0]
    ensures r.Ok? ==> forall id :: id in r.value.objects ==>
      (id in acc.objects && r.value.objects[id] == acc.objects[id])
      || exists k :: 0 <= k < |archives| && |archives[k].objects| == 1 && archives[k].identifier == id
  {
    if archives == [] then Ok(acc)
    else
      var a := archives[0];
      if |a.objects| == 0 then
        assert RejectedAt(archives, acc.objects.Keys, 0);
        Err(FileFormatError)
      else if a.identifier in acc.objects then
        assert RejectedAt(archives, acc.objects.Keys, 0);
        Err(FileFormatError)
      else
        var next := if |a.objects| == 1 then Stored(acc.objects[a.identifier := a.objects[0]], acc.order + [a.identifier]) else acc;
        var r := AddArchives(archives[1..], next);
        RejectedShift(archives, acc.objects.Keys, next.objects.Keys);
        if r.Ok? then
          assert forall k :: 1 <= k < |archives| ==> archives[k] == archives[1..][k - 1];
          r
        else r
  }

  /** Storing the first archive moves its identifier (when it has one object) into the known
      set; the rest is then refused exactly where the whole would have been. */
  lemma RejectedShift(archives: seq<Archive>, known: set<nat>, next: set<nat>)
    requires archives != [] && |archives[0].objects| > 0 && archives[0].identifier !in known
    requires next == if |archives[0].objects| == 1 then known + {archives[0].identifier} else known
    ensures (exists k :: 0 <= k < |archives| && RejectedAt(archives, known, k))
        <==> (exists k :: 0 <= k < |archives[1..]| && RejectedAt(archives[1..], next, k))
  {
    var rest := archives[1..];
    if exists k :: 0 <= k < |archives| && RejectedAt(archives, known, k) {
      var k :| 0 <= k < |archives| && RejectedAt(archives, known, k);
      assert k > 0;
      assert rest[k - 1] == archives[k];
      if exists j :: 0 <= j < k && |archives[j].objects| == 1 && archives[j].identifier == archives[k].identifier {
        var j :| 0 <= j < k && |archives[j].objects| == 1 && archives[j].identifier == archives[k].identifier;
        if j > 0 {
          assert rest[j - 1] == archives[j];
        }
      }
      assert RejectedAt(rest, next, k - 1);
    }
    if exists k :: 0 <= k < |rest| && RejectedAt(rest, next, k) {
      var k :| 0 <= k < |rest| && RejectedAt(rest, next, k);
      assert archives[k + 1] == rest[k];
      if exists j :: 0 <= j < k && |rest[j].objects| == 1 && rest[j].identifier == rest[k].identifier {
        var j :| 0 <= j < k && |rest[j].objects| == 1 && rest[j].identifier == rest[k].identifier;
        assert archives[j + 1] == rest[j];
      }
      assert RejectedAt(archives, known, k + 1);
    }
  }

  /** `ObjectStore.__init__` over the IWA files found, each given as its chunks: every file
      must have exactly one chunk and every archive of it must pass `AddArchives`, or the
      document is refused with a FileFormatError. */
  function BuildFrom(files: seq<seq<seq<Archive>>>, acc: Stored): (r: Result<Stored>)
    ensures r.Err? ==> r.error == FileFormatError
    ensures r.Ok? ==> forall f :: 0 <= f < |files| ==> |files[f]| == 1
    ensures (exists f :: 0 <= f < |files| && |files[f]| != 1) ==> r.Err?
    ensures r.Ok? ==> forall f, k :: 0 <= f < |files| && 0 <= k < |files[f][0]| ==> |files[f][0][k].objects| > 0
  {
    if files == [] then Ok(acc)
    else if |files[0]| != 1 then Err(FileFormatError)
    else
      var next := AddArchives(files[0][0], acc);
      if next.Err? then Err(FileFormatError)
      else
        forall k | 0 <= k < |files[0][0]|
          ensures |files[0][0][k].objects| > 0
        {
          assert !RejectedAt(files[0][0], acc.objects.Keys, k);
        }
        var r := BuildFrom(files[1..], next.value);
        assert forall f :: 1 <= f < |files| ==> files[f] == files[1..][f - 1];
        r
  }

  /** The first-generation object store. */
  class ObjectStore {
    var objects: map<nat, Iwa.Message>
    var order: seq<nat>

    constructor (stored: Stored)
      ensures objects == stored.objects && order == stored.order
    {
      objects := stored.objects;
      order := stored.order;
    }

    /** `ObjectStore.__init__` after the zip is read, with its nested loops and checks. */
    static method Load(files: seq<seq<seq<Archive>>>) returns (r: Result<ObjectStore>)
      ensures r.Ok? <==> BuildFrom(files, Stored(map[], [])).Ok?
      ensures r.Err? ==> r.error == FileFormatError
      ensures r.Ok? ==>
        fresh(r.value) && r.value.objects == BuildFrom(files, Stored(map[], [])).value.objects
        && r.value.order == BuildFrom(files, Stored(map[], [])).value.order
    {
      var acc := Stored(map[], []);
      var f := 0;
      while f < |files|
        invariant 0 <= f <= |files|
        invariant BuildFrom(files, Stored(map[], [])) == BuildFrom(files[f..], acc)
      {
        assert files[f..][1..] == files[f + 1..];
        if |files[f]| != 1 {
          return Err(FileFormatError);
        }
        var archives := files[f][0];
        var k := 0;
        var chunkAcc := acc;
        while k < |archives|
          invariant 0 <= k <= |archives|
          invariant AddArchives(archives, acc) == AddArchives(archives[k..], chunkAcc)
        {
          assert archives[k..][1..] == archives[k + 1..];
          var archive := archives[k];
          if |archive.objects| == 0 {
            return Err(FileFormatError);
          }
          if archive.identifier in chunkAcc.objects {
            return Err(FileFormatError);
          }
          if |archive.objects| == 1 {
            chunkAcc := Stored(chunkAcc.objects[archive.identifier := archive.objects[0]], chunkAcc.order + [archive.identifier]);
          }
          k := k + 1;
        }
        acc := chunkAcc;
        f := f + 1;
      }
      var store := new ObjectStore(acc);
      return Ok(store);
    }

    /** `find_refs`: the identifiers, in insertion order, of the objects whose class is called
        `refName`. */
    function FindRefs(refName: string): (r: seq<nat>)
      reads this
      requires forall i :: i in order ==> i in objects
      ensures forall i :: i in r <==> i in order && C.ShortName(objects[i].typeName) == refName
    {
      C.FilterRefs(order, objects, refName)
    }
  }
}
