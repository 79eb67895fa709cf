// The version-5 cell storage buffer (cell.py `_from_storage` / `_to_buffer`, and the
// decoder of cell_storage.py). A buffer is a 12-byte header (byte 0 the version, byte 1
// the cell type, bytes 6-7 the format "extras", bytes 8-11 a flags word), followed by the
// optional fields whose flag bits are set, in the order of their bits.
//
// The flags word is only ever used as a set of bits, so flag masks are written here as
// bit positions (bit 5 is the mask 0x20) and the word the writer builds as the list of
// its bits, least significant first.

module CellCodec {
  import opened Outcomes
  import opened Bytes
  import D = Decimal128
  import CellTypes

  /** An IEEE 754 double kept as its 8 little-endian bytes; floating point is not modelled. */
  type Double = b: seq<byte> | |b| == 8 witness [0, 0, 0, 0, 0, 0, 0, 0]

  /** The 32-bit identifiers a buffer can carry. */
  datatype IdName =
    | StringId | RichId | CellStyleId | TextStyleId | FormulaId | ControlId | SuggestId
    | NumFormatId | CurrencyFormatId | DateFormatId | DurationFormatId | TextFormatId | BoolFormatId

  // ---- flag bits ----

  /** 2 to the power k: the mask of bit k. */
  function Pow2(k: nat): (r: nat)
    ensures r >= 1
  {
    if k == 0 then 1 else 2 * Pow2(k - 1)
  }

  /** Whether bit k of a non-negative integer is set: `n & (1 << k) != 0`. The flags word
      is read signed, but Python's `&` on a negative int sees the bits of its two's
      complement, which are the bits of the unsigned word used here. */
  predicate TestBit(n: nat, k: nat)
  {
    if k == 0 then n % 2 == 1 else TestBit(n / 2, k - 1)
  }

  /** The integer whose bits, least significant first, are `bits`. */
  function Word(bits: seq<bool>): (r: nat)
    ensures r < Pow2(|bits|)
  {
    if bits == [] then 0 else (if bits[0] then 1 else 0) + 2 * Word(bits[1..])
  }

  lemma {:induction false} TestBitZero(k: nat)
    ensures !TestBit(0, k)
  {
    if k > 0 {
      TestBitZero(k - 1);
    }
  }

  /** Bit k of a word is its k-th bit, and every bit beyond its length is clear. */
  lemma {:induction false} TestBitWord(bits: seq<bool>, k: nat)
    ensures TestBit(Word(bits), k) <==> k < |bits| && bits[k]
  {
    if bits == [] {
      TestBitZero(k);
    } else if k > 0 {
      assert Word(bits) / 2 == Word(bits[1..]);
      TestBitWord(bits[1..], k - 1);
    }
  }

  // ---- reading: the field walk ----

  /** Where a field's bytes go when it is read. */
  datatype Slot = D128Slot | DoubleSlot | SecondsSlot | IdSlot(id: IdName) | Unused

  /** One step of a decoder's walk: a field of `size` bytes present when flag bit `bit` is
      set, or a skip of 4 bytes per set bit among `bits`. */
  datatype Step = Field(bit: nat, size: nat, slot: Slot) | SkipSetBits(bits: seq<nat>)

  /** The walk of `Cell._from_storage`: fields in bit order, the conditional-style field
      (0x80, bit 7) skipped in place, and bits 8 and 11 (mask 0x900) skipped after the
      suggest id. */
  const CellLayout: seq<Step> := [
    Field(0, 16, D128Slot), Field(1, 8, DoubleSlot), Field(2, 8, SecondsSlot),
    Field(3, 4, IdSlot(StringId)), Field(4, 4, IdSlot(RichId)),
    Field(5, 4, IdSlot(CellStyleId)), Field(6, 4, IdSlot(TextStyleId)),
    Field(7, 4, Unused), Field(9, 4, IdSlot(FormulaId)),
    Field(10, 4, IdSlot(ControlId)), Field(12, 4, IdSlot(SuggestId)),
    SkipSetBits([8, 11]),
    Field(13, 4, IdSlot(NumFormatId)), Field(14, 4, IdSlot(CurrencyFormatId)),
    Field(15, 4, IdSlot(DateFormatId)), Field(16, 4, IdSlot(DurationFormatId)),
    Field(17, 4, IdSlot(TextFormatId)), Field(18, 4, IdSlot(BoolFormatId))]

  /** The walk of `CellStorage.__init__`: as above, but the control and suggest ids are
      skipped with bits 8 and 11 (mask 0x1D00) instead of being read. */
  const StorageLayout: seq<Step> := [
    Field(0, 16, D128Slot), Field(1, 8, DoubleSlot), Field(2, 8, SecondsSlot),
    Field(3, 4, IdSlot(StringId)), Field(4, 4, IdSlot(RichId)),
    Field(5, 4, IdSlot(CellStyleId)), Field(6, 4, IdSlot(TextStyleId)),
    Field(7, 4, Unused), Field(9, 4, IdSlot(FormulaId)),
    SkipSetBits([8, 10, 11, 12]),
    Field(13, 4, IdSlot(NumFormatId)), Field(14, 4, IdSlot(CurrencyFormatId)),
    Field(15, 4, IdSlot(DateFormatId)), Field(16, 4, IdSlot(DurationFormatId)),
    Field(17, 4, IdSlot(TextFormatId)), Field(18, 4, IdSlot(BoolFormatId))]

  /** The optional fields read from a buffer. */
  datatype Fields = Fields(
    d128: Option<D.Decimal>,
    double: Option<Double>,
    seconds: Option<Double>,
    ids: map<IdName, int>)

  const NoFields := Fields(None, None, None, map[])

  /** How many of `bits` are set in the flags: `bin(flags & mask).count("1")`. */
  function SetCount(flags: nat, bits: seq<nat>): (r: nat)
    ensures r <= |bits|
  {
    if bits == [] then 0 else (if TestBit(flags, bits[0]) then 1 else 0) + SetCount(flags, bits[1..])
  }

  /** Read one field of `size` bytes at `offset` into its slot. A decimal128 read from fewer
      than 16 bytes fails on its byte 15 (IndexError); `struct.unpack` of a short slice is a
      struct error. */
  function ReadSlot(buffer: seq<byte>, offset: nat, size: nat, slot: Slot, f: Fields)
    : (r: Result<Fields>)
  {
    var raw := Slice(buffer, offset, offset + size);
    match slot
    case D128Slot => if |raw| < 16 then Err(IndexError) else Ok(f.(d128 := Some(D.Unpack(raw))))
    case DoubleSlot => if |raw| != 8 then Err(StructError) else Ok(f.(double := Some(raw)))
    case SecondsSlot => if |raw| != 8 then Err(StructError) else Ok(f.(seconds := Some(raw)))
    case IdSlot(name) =>
      var v :- Unpack(raw, 4, true);
      Ok(f.(ids := f.ids[name := v]))
    case Unused => Ok(f)
  }

  /** One step of the walk from (fields, offset). */
  function StepAt(buffer: seq<byte>, flags: nat, step: Step, f: Fields, offset: nat)
    : (r: Result<(Fields, nat)>)
    ensures r.Ok? ==> r.value.1 >= offset
  {
    match step
    case Field(bit, size, slot) =>
      if TestBit(flags, bit) then
        var g :- ReadSlot(buffer, offset, size, slot, f);
        Ok((g, offset + size))
      else Ok((f, offset))
    case SkipSetBits(bits) => Ok((f, offset + 4 * SetCount(flags, bits)))
  }

  /** The first n steps of a walk, from offset 12 with no fields. */
  function Walk(buffer: seq<byte>, flags: nat, layout: seq<Step>, n: nat)
    : (r: Result<(Fields, nat)>)
    requires n <= |layout|
    ensures r.Ok? ==> r.value.1 >= 12
  {
    if n == 0 then Ok((NoFields, 12))
    else
      var prev :- Walk(buffer, flags, layout, n - 1);
      StepAt(buffer, flags, layout[n - 1], prev.0, prev.1)
  }

  /** The field walk of the decoders: an offset advanced over the buffer, step by step. */
  method ReadFields(buffer: seq<byte>, flags: nat, layout: seq<Step>)
    returns (r: Result<(Fields, nat)>)
    ensures r == Walk(buffer, flags, layout, |layout|)
  {
    var f := NoFields;
    var offset := 12;
    for k := 0 to |layout|
      invariant Walk(buffer, flags, layout, k) == Ok((f, offset))
    {
      WalkNext(buffer, flags, layout, k);
      var next := ReadStep(buffer, flags, layout[k], f, offset);
      if next.Err? {
        WalkFailed(buffer, flags, layout, k + 1, |layout|);
        return Err(next.error);
      }
      f, offset := next.value.0, next.value.1;
    }
    return Ok((f, offset));
  }

  /** One `if flags & bit:` block of the walk: read the field and advance, or skip the ids
      of a set of bits. */
  method ReadStep(buffer: seq<byte>, flags: nat, step: Step, f: Fields, offset: nat)
    returns (r: Result<(Fields, nat)>)
    ensures r == StepAt(buffer, flags, step, f, offset)
  {
    match step
    case Field(bit, size, slot) =>
      if TestBit(flags, bit) {
        var g := ReadSlot(buffer, offset, size, slot, f);
        if g.Err? {
          return Err(g.error);
        }
        return Ok((g.value, offset + size));
      }
      return Ok((f, offset));
    case SkipSetBits(bits) =>
      return Ok((f, offset + 4 * SetCount(flags, bits)));
  }

  lemma {:induction false} WalkFailed(buffer: seq<byte>, flags: nat, layout: seq<Step>, n: nat, m: nat)
    requires n <= m <= |layout| && Walk(buffer, flags, layout, n).Err?
    ensures Walk(buffer, flags, layout, m) == Walk(buffer, flags, layout, n)
    decreases m - n
  {
    if n < m {
      WalkErrStep(buffer, flags, layout, n + 1);
      WalkFailed(buffer, flags, layout, n + 1, m);
    }
  }

  /** A walk that has failed stays failed for one more step. */
  lemma WalkErrStep(buffer: seq<byte>, flags: nat, layout: seq<Step>, k: nat)
    requires 0 < k <= |layout| && Walk(buffer, flags, layout, k - 1).Err?
    ensures Walk(buffer, flags, layout, k) == Walk(buffer, flags, layout, k - 1)
  {
  }

  /** The flags word of a buffer of at least 12 bytes, as an unsigned pattern. */
  function FlagsWord(buffer: seq<byte>): nat
    requires |buffer| >= 12
  {
    LittleEndian(buffer[8..12])
  }

  // ---- reading a cell: Cell._from_storage ----

  /** The cell classes a buffer decodes to. */
  datatype Kind =
    | EmptyKind | NumberKind | TextKind | DateKind | BoolKind | DurationKind | ErrorKind
    | RichTextKind | CurrencyKind

  /** The class `_from_storage` picks for a cell-type byte. */
  function KindOf(cellType: int): (r: Option<Kind>)
    ensures r.Some? <==> cellType in {CellTypes.GenericCellType, CellTypes.NumberCellType,
      CellTypes.TextCellType, CellTypes.DateCellType, CellTypes.BoolCellType,
      CellTypes.DurationCellType, CellTypes.FormulaErrorCellType, CellTypes.AutomaticCellType,
      CellTypes.CurrencyCellType}
  {
    if cellType == CellTypes.GenericCellType then Some(EmptyKind)
    else if cellType == CellTypes.NumberCellType then Some(NumberKind)
    else if cellType == CellTypes.TextCellType then Some(TextKind)
    else if cellType == CellTypes.DateCellType then Some(DateKind)
    else if cellType == CellTypes.BoolCellType then Some(BoolKind)
    else if cellType == CellTypes.DurationCellType then Some(DurationKind)
    else if cellType == CellTypes.FormulaErrorCellType then Some(ErrorKind)
    else if cellType == CellTypes.AutomaticCellType then Some(RichTextKind)
    else if cellType == CellTypes.CurrencyCellType then Some(CurrencyKind)
    else None
  }

  /** A decoded cell: its class, the fields read, the extras word and the signed flags. A
      text or rich-text cell keeps its string or rich id; the table lookups that turn them
      into text are not part of this model. */
  datatype Decoded = Decoded(kind: Kind, fields: Fields, extras: nat, flags: int)

  /** `Cell._from_storage` as a value. A date cell without seconds, or a bool or duration
      cell without a double, fails to build its value (TypeError). */
  function Decode(buffer: seq<byte>): (r: Result<Decoded>)
    ensures |buffer| > 0 && buffer[0] != 5 ==> r == Err(UnsupportedError)
    ensures (|buffer| >= 12 && buffer[0] == 5 && KindOf(buffer[1]).None?
             && Walk(buffer, FlagsWord(buffer), CellLayout, |CellLayout|).Ok?) ==> r == Err(UnsupportedError)
    ensures r.Ok? ==> |buffer| >= 12 && buffer[0] == 5 && KindOf(buffer[1]) == Some(r.value.kind)
    ensures r.Ok? ==> (Walk(buffer, FlagsWord(buffer), CellLayout, |CellLayout|).Ok?
                       && r.value.fields == Walk(buffer, FlagsWord(buffer), CellLayout, |CellLayout|).value.0)
    ensures r.Ok? && r.value.kind == DateKind ==> r.value.fields.seconds.Some?
    ensures r.Ok? && r.value.kind in {BoolKind, DurationKind} ==> r.value.fields.double.Some?
  {
    if |buffer| == 0 then Err(IndexError)
    else if buffer[0] != 5 then Err(UnsupportedError)
    else if |buffer| < 12 then Err(StructError)
    else
      var flags := Unpack(buffer[8..12], 4, true).value;
      var walked :- Walk(buffer, FlagsWord(buffer), CellLayout, |CellLayout|);
      var f := walked.0;
      var kind := KindOf(buffer[1]);
      if kind.None? then Err(UnsupportedError)
      else if kind.value == DateKind && f.seconds.None? then Err(TypeError)
      else if kind.value in {BoolKind, DurationKind} && f.double.None? then Err(TypeError)
      else Ok(Decoded(kind.value, f, Unpack(buffer[6..8], 2, false).value, flags))
  }

  /** `_from_storage`: the version check, the flags word, the field walk, then the class. */
  method FromStorage(buffer: seq<byte>) returns (r: Result<Decoded>)
    ensures r == Decode(buffer)
  {
    if |buffer| == 0 {
      return Err(IndexError);
    }
    var version := buffer[0];
    if version != 5 {
      return Err(UnsupportedError);
    }
    var flagsWord := Unpack(Slice(buffer, 8, 12), 4, true);
    if flagsWord.Err? {
      return Err(flagsWord.error);
    }
    var walked := ReadFields(buffer, FlagsWord(buffer), CellLayout);
    if walked.Err? {
      return Err(walked.error);
    }
    var f := walked.value.0;
    var kind := KindOf(buffer[1]);
    if kind.None? {
      return Err(UnsupportedError);
    }
    if kind.value == DateKind && f.seconds.None? {
      return Err(TypeError);
    }
    if kind.value in {BoolKind, DurationKind} && f.double.None? {
      return Err(TypeError);
    }
    var extras := Unpack(buffer[6..8], 2, false).value;
    return Ok(Decoded(kind.value, f, extras, flagsWord.value));
  }

  // ---- reading a cell: CellStorage.__init__ ----

  /** The cell type `CellStorage.__init__` gives a cell-type byte: as `_from_storage`, except
      that the currency code 10 reads as a plain number. */
  function StorageKindOf(cellType: int): (r: Option<Kind>)
    ensures r.Some? <==> KindOf(cellType).Some?
    ensures r != Some(CurrencyKind)
    ensures cellType != CellTypes.CurrencyCellType ==> r == KindOf(cellType)
  {
    if cellType == CellTypes.CurrencyCellType then Some(NumberKind) else KindOf(cellType)
  }

  /** A cell as `CellStorage.__init__` leaves it: its type (None when there is no buffer) and
      the fields read. */
  datatype StoredCell = StoredCell(kind: Option<Kind>, fields: Fields)

  /** `CellStorage.__init__` as a value. No buffer leaves every field unset. A date without
      seconds or a bool without a double fails to build its value (TypeError); a duration
      without a double keeps the value None. */
  function DecodeStorage(buffer: Option<seq<byte>>): (r: Result<StoredCell>)
    ensures buffer.None? ==> r == Ok(StoredCell(None, NoFields))
    ensures buffer.Some? && |buffer.value| > 0 && buffer.value[0] != 5 ==> r == Err(UnsupportedError)
    ensures buffer.Some? && r.Ok? ==>
      var b := buffer.value;
      |b| >= 12 && b[0] == 5 && r.value.kind == StorageKindOf(b[1]) && r.value.kind.Some?
      && Walk(b, FlagsWord(b), StorageLayout, |StorageLayout|).Ok?
      && r.value.fields == Walk(b, FlagsWord(b), StorageLayout, |StorageLayout|).value.0
    ensures (buffer.Some? && |buffer.value| >= 12 && buffer.value[0] == 5
             && Walk(buffer.value, FlagsWord(buffer.value), StorageLayout, |StorageLayout|).Ok?
             && StorageKindOf(buffer.value[1]).None?) ==> r == Err(UnsupportedError)
  {
    if buffer.None? then Ok(StoredCell(None, NoFields))
    else
      var b := buffer.value;
      if |b| == 0 then Err(IndexError)
      else if b[0] != 5 then Err(UnsupportedError)
      else if |b| < 12 then Err(StructError)
      else
        var walked :- Walk(b, FlagsWord(b), StorageLayout, |StorageLayout|);
        var f := walked.0;
        var kind := StorageKindOf(b[1]);
        if kind.None? then Err(UnsupportedError)
        else if kind.value == DateKind && f.seconds.None? then Err(TypeError)
        else if kind.value == BoolKind && f.double.None? then Err(TypeError)
        else Ok(StoredCell(kind, f))
  }

  /** `CellStorage.__init__`: the same offset walk over the storage decoder's layout. */
  method NewCellStorage(buffer: Option<seq<byte>>) returns (r: Result<StoredCell>)
    ensures r == DecodeStorage(buffer)
  {
    if buffer.None? {
      return Ok(StoredCell(None, NoFields));
    }
    var b := buffer.value;
    if |b| == 0 {
      return Err(IndexError);
    }
    if b[0] != 5 {
      return Err(UnsupportedError);
    }
    if |b| < 12 {
      return Err(StructError);
    }
    var walked := ReadFields(b, FlagsWord(b), StorageLayout);
    if walked.Err? {
      return Err(walked.error);
    }
    var f := walked.value.0;
    var kind := StorageKindOf(b[1]);
    if kind.None? {
      return Err(UnsupportedError);
    }
    if kind.value == DateKind && f.seconds.None? {
      return Err(TypeError);
    }
    if kind.value == BoolKind && f.double.None? {
      return Err(TypeError);
    }
    return Ok(StoredCell(kind, f));
  }

  /** The fields without the control and suggest ids, which the storage decoder skips. */
  function Strip(f: Fields): Fields
  {
    f.(ids := f.ids - {ControlId, SuggestId})
  }

  /** Whatever `_from_storage` reads, `CellStorage.__init__` reads too: the same cell type
      (a currency cell as a number) and the same fields except the control and suggest ids. */
  lemma StorageAgreesWithCell(b: seq<byte>)
    requires Decode(b).Ok?
    ensures DecodeStorage(Some(b)).Ok?
    ensures DecodeStorage(Some(b)).value.fields == Strip(Decode(b).value.fields)
    ensures DecodeStorage(Some(b)).value.kind == StorageKindOf(b[1])
    ensures Decode(b).value.kind != CurrencyKind ==> DecodeStorage(Some(b)).value.kind == Some(Decode(b).value.kind)
  {
    var fl := FlagsWord(b);
    StorageWalkAgrees(b, fl);
  }

  /** A successful walk of `_from_storage`'s layout has a matching walk of the storage layout. */
  lemma StorageWalkAgrees(b: seq<byte>, fl: nat)
    requires Walk(b, fl, CellLayout, |CellLayout|).Ok?
    ensures Walk(b, fl, StorageLayout, |StorageLayout|).Ok?
    ensures Walk(b, fl, StorageLayout, |StorageLayout|).value
         == (Strip(Walk(b, fl, CellLayout, |CellLayout|).value.0), Walk(b, fl, CellLayout, |CellLayout|).value.1)
  {
    assert |CellLayout| == 18 && |StorageLayout| == 16;
    WalkOkBefore(b, fl, CellLayout, 9, 18);
    SamePrefixWalk(b, fl, 9);
    WalkOkBefore(b, fl, CellLayout, 12, 18);
    var (f, off) := Walk(b, fl, CellLayout, 9).value;
    MiddleSteps(b, fl, f, off);
    TailSteps(b, fl, 0);
  }

  /** A walk that succeeds has succeeded at every earlier step. */
  lemma WalkOkBefore(b: seq<byte>, fl: nat, layout: seq<Step>, n: nat, m: nat)
    requires n <= m <= |layout| && Walk(b, fl, layout, m).Ok?
    ensures Walk(b, fl, layout, n).Ok?
  {
    if Walk(b, fl, layout, n).Err? {
      WalkFailed(b, fl, layout, n, m);
    }
  }

  /** The two layouts share their first nine steps, up to the formula id. */
  lemma SamePrefixWalk(b: seq<byte>, fl: nat, n: nat)
    requires n <= 9
    ensures Walk(b, fl, StorageLayout, n) == Walk(b, fl, CellLayout, n)
  {
    assert StorageLayout[..9] == CellLayout[..9];
    assert StorageLayout[..n] == StorageLayout[..9][..n];
    assert CellLayout[..n] == CellLayout[..9][..n];
    SharedPrefixWalk(b, fl, StorageLayout, CellLayout, n);
  }

  /** Two layouts that agree on their first n steps walk alike for n steps. */
  lemma {:induction false} SharedPrefixWalk(b: seq<byte>, fl: nat, la: seq<Step>, lb: seq<Step>, n: nat)
    requires n <= |la| && n <= |lb| && la[..n] == lb[..n]
    ensures Walk(b, fl, la, n) == Walk(b, fl, lb, n)
  {
    if n > 0 {
      assert la[..n - 1] == la[..n][..n - 1] && lb[..n - 1] == lb[..n][..n - 1];
      assert la[n - 1] == la[..n][n - 1] && lb[n - 1] == lb[..n][n - 1];
      SharedPrefixWalk(b, fl, la, lb, n - 1);
      if Walk(b, fl, la, n - 1).Ok? {
        WalkNext(b, fl, la, n - 1);
        WalkNext(b, fl, lb, n - 1);
      } else {
        WalkErrStep(b, fl, la, n);
        WalkErrStep(b, fl, lb, n);
      }
    }
  }

  /** The control id, the suggest id and the skip of bits 8 and 11 advance as far as the one
      skip of bits 8, 10, 11 and 12, and add only the control and suggest ids. */
  lemma MiddleSteps(b: seq<byte>, fl: nat, f: Fields, off: nat)
    requires Walk(b, fl, CellLayout, 9) == Ok((f, off)) && Walk(b, fl, CellLayout, 12).Ok?
    ensures Walk(b, fl, StorageLayout, 10) == Ok((Strip(Walk(b, fl, CellLayout, 12).value.0), Walk(b, fl, CellLayout, 12).value.1))
  {
    SamePrefixWalk(b, fl, 9);
    WalkOkBefore(b, fl, CellLayout, 10, 12);
    WalkOkBefore(b, fl, CellLayout, 11, 12);
    PrefixLacksControl(b, fl, 9);
    assert Strip(f) == f;
    var (f10, off10) := Walk(b, fl, CellLayout, 10).value;
    var (f11, off11) := Walk(b, fl, CellLayout, 11).value;
    StepDropped(b, fl, CellLayout[9], f, off);
    StepDropped(b, fl, CellLayout[10], f10, off10);
    assert CellLayout[11] == SkipSetBits([8, 11]);
    assert StorageLayout[9] == SkipSetBits([8, 10, 11, 12]);
    SetCountFour(fl);
  }

  /** Reading the control or suggest id changes nothing that `Strip` keeps, and advances by
      the field's size when its bit is set. */
  lemma StepDropped(b: seq<byte>, fl: nat, step: Step, f: Fields, off: nat)
    requires step.Field? && step.slot.IdSlot? && step.slot.id in {ControlId, SuggestId}
    requires StepAt(b, fl, step, f, off).Ok?
    ensures Strip(StepAt(b, fl, step, f, off).value.0) == Strip(f)
    ensures StepAt(b, fl, step, f, off).value.1 == off + (if TestBit(fl, step.bit) then step.size else 0)
  {
    if TestBit(fl, step.bit) {
      var v := Unpack(Slice(b, off, off + step.size), 4, true).value;
      assert f.ids[step.slot.id := v] - {ControlId, SuggestId} == f.ids - {ControlId, SuggestId};
    }
  }

  /** The first nine steps read no control or suggest id. */
  lemma PrefixLacksControl(b: seq<byte>, fl: nat, n: nat)
    requires n <= 9 && Walk(b, fl, CellLayout, n).Ok?
    ensures ControlId !in Walk(b, fl, CellLayout, n).value.0.ids
    ensures SuggestId !in Walk(b, fl, CellLayout, n).value.0.ids
  {
    forall k | 0 <= k < n
      ensures KeepsOut(CellLayout[k])
    {
      PrefixLayout(k);
    }
    WalkKeepsOut(b, fl, CellLayout, n);
  }

  /** A step that reads a field other than the control or suggest id. */
  predicate KeepsOut(step: Step)
  {
    step.Field? && (step.slot.IdSlot? ==> step.slot.id !in {ControlId, SuggestId})
  }

  /** A walk whose steps all keep out the control and suggest ids has read neither. */
  lemma {:induction false} WalkKeepsOut(b: seq<byte>, fl: nat, layout: seq<Step>, n: nat)
    requires n <= |layout| && Walk(b, fl, layout, n).Ok?
    requires forall k | 0 <= k < n :: KeepsOut(layout[k])
    ensures ControlId !in Walk(b, fl, layout, n).value.0.ids
    ensures SuggestId !in Walk(b, fl, layout, n).value.0.ids
  {
    if n > 0 {
      WalkOkBefore(b, fl, layout, n - 1, n);
      WalkKeepsOut(b, fl, layout, n - 1);
      var (g, off) := Walk(b, fl, layout, n - 1).value;
      WalkNext(b, fl, layout, n - 1);
      StepKeepsOut(b, fl, layout[n - 1], g, off);
    }
  }

  /** The first nine steps of `_from_storage`'s layout read no control or suggest id. */
  lemma PrefixLayout(k: nat)
    requires k < 9
    ensures |CellLayout| == 18 && KeepsOut(CellLayout[k])
  {
  }

  /** A step that reads no control or suggest id adds neither. */
  lemma StepKeepsOut(b: seq<byte>, fl: nat, step: Step, f: Fields, off: nat)
    requires KeepsOut(step)
    requires StepAt(b, fl, step, f, off).Ok?
    requires ControlId !in f.ids && SuggestId !in f.ids
    ensures ControlId !in StepAt(b, fl, step, f, off).value.0.ids
    ensures SuggestId !in StepAt(b, fl, step, f, off).value.0.ids
  {
  }

  /** Bits 8, 10, 11 and 12 counted at once, or bits 8 and 11 and then 10 and 12. */
  lemma SetCountFour(fl: nat)
    ensures SetCount(fl, [8, 10, 11, 12])
         == SetCount(fl, [8, 11]) + (if TestBit(fl, 10) then 1 else 0) + (if TestBit(fl, 12) then 1 else 0)
  {
    var s4: seq<nat> := [8, 10, 11, 12];
    var s2: seq<nat> := [8, 11];
    assert s4[1..] == [10, 11, 12] && s4[1..][1..] == [11, 12] && s4[1..][1..][1..] == [12];
    assert s2[1..] == [11] && [11][1..] == [] && [12][1..] == [];
    assert SetCount(fl, [12]) == (if TestBit(fl, 12) then 1 else 0);
    assert SetCount(fl, [11]) == (if TestBit(fl, 11) then 1 else 0);
    assert SetCount(fl, [11, 12]) == SetCount(fl, [11]) + (if TestBit(fl, 12) then 1 else 0);
    assert SetCount(fl, [10, 11, 12]) == (if TestBit(fl, 10) then 1 else 0) + SetCount(fl, [11, 12]);
    assert SetCount(fl, s4) == (if TestBit(fl, 8) then 1 else 0) + SetCount(fl, [10, 11, 12]);
    assert SetCount(fl, s2) == (if TestBit(fl, 8) then 1 else 0) + SetCount(fl, [11]);
  }

  /** The six format-id steps, two places apart in the two layouts, keep the walks matched. */
  lemma {:induction false} TailSteps(b: seq<byte>, fl: nat, k: nat)
    requires k <= 6 && Walk(b, fl, CellLayout, 18).Ok? && Walk(b, fl, CellLayout, 12 + k).Ok?
    requires Walk(b, fl, StorageLayout, 10 + k)
          == Ok((Strip(Walk(b, fl, CellLayout, 12 + k).value.0), Walk(b, fl, CellLayout, 12 + k).value.1))
    ensures Walk(b, fl, StorageLayout, 16)
         == Ok((Strip(Walk(b, fl, CellLayout, 18).value.0), Walk(b, fl, CellLayout, 18).value.1))
    decreases 6 - k
  {
    if k < 6 {
      WalkOkBefore(b, fl, CellLayout, 13 + k, 18);
      TailLayout(k);
      MatchedStep(b, fl, CellLayout, StorageLayout, 12 + k, 10 + k);
      TailSteps(b, fl, k + 1);
    }
  }

  /** The last six steps of the two layouts are the same format-id reads. */
  lemma TailLayout(k: nat)
    requires k < 6
    ensures |CellLayout| == 18 && |StorageLayout| == 16 && CellLayout[12 + k] == StorageLayout[10 + k]
    ensures CellLayout[12 + k].Field? && CellLayout[12 + k].slot.IdSlot?
    ensures CellLayout[12 + k].slot.id !in {ControlId, SuggestId}
  {
  }

  /** An id step shared by two layouts keeps walks that agree up to stripping in agreement. */
  lemma MatchedStep(b: seq<byte>, fl: nat, la: seq<Step>, lb: seq<Step>, i: nat, j: nat)
    requires i < |la| && j < |lb| && la[i] == lb[j]
    requires la[i].Field? && la[i].slot.IdSlot? && la[i].slot.id !in {ControlId, SuggestId}
    requires Walk(b, fl, la, i).Ok? && Walk(b, fl, la, i + 1).Ok?
    requires Walk(b, fl, lb, j) == Ok((Strip(Walk(b, fl, la, i).value.0), Walk(b, fl, la, i).value.1))
    ensures Walk(b, fl, lb, j + 1) == Ok((Strip(Walk(b, fl, la, i + 1).value.0), Walk(b, fl, la, i + 1).value.1))
  {
    var (f, off) := Walk(b, fl, la, i).value;
    WalkNext(b, fl, la, i);
    WalkNext(b, fl, lb, j);
    StepStrip(b, fl, la[i], f, off);
  }

  /** Reading an id other than the control or suggest id commutes with stripping them. */
  lemma StepStrip(b: seq<byte>, fl: nat, step: Step, f: Fields, off: nat)
    requires step.Field? && step.slot.IdSlot? && step.slot.id !in {ControlId, SuggestId}
    requires StepAt(b, fl, step, f, off).Ok?
    ensures StepAt(b, fl, step, Strip(f), off)
         == Ok((Strip(StepAt(b, fl, step, f, off).value.0), StepAt(b, fl, step, f, off).value.1))
  {
    if TestBit(fl, step.bit) {
      var raw := Slice(b, off, off + step.size);
      var v := Unpack(raw, 4, true).value;
      var name := step.slot.id;
      assert f.ids[name := v] - {ControlId, SuggestId} == (f.ids - {ControlId, SuggestId})[name := v];
    }
  }

  // ---- writing a cell: Cell._to_buffer ----

  /** What `_to_buffer` writes for each cell class. Text is saved under the key the table's
      string list gives it, and dates and durations as the seconds already converted to a
      double; those lookups and conversions are not part of this model. */
  datatype SaveValue =
    | SaveNumber(d: D.Decimal, currency: bool)
    | SaveText(key: int)
    | SaveDate(seconds: Double)
    | SaveBool(double: Double)
    | SaveDuration(double: Double)
    | SaveEmpty
    | SaveMerged
    | SaveRichText
    | SaveError

  /** A cell to save: its value and the ids it carries (an absent key is a `None` id). */
  datatype SaveCell = SaveCell(value: SaveValue, ids: map<IdName, int>)

  /** The ids written after the value, in order, with their flag bits. */
  const WriteOrder: seq<(IdName, nat)> := [
    (RichId, 4), (CellStyleId, 5), (TextStyleId, 6), (FormulaId, 9), (ControlId, 10),
    (SuggestId, 12), (NumFormatId, 13), (CurrencyFormatId, 14), (DateFormatId, 15),
    (DurationFormatId, 16), (TextFormatId, 17), (BoolFormatId, 18)]

  /** The flag bits a writer can set: 0 to 18. */
  const FlagWidth := 19

  /** The value part of a buffer: its flag bit, cell-type byte and bytes. */
  datatype ValuePart = ValuePart(bit: Option<nat>, cellType: byte, bytes: seq<byte>)

  /** The value part `_to_buffer` chooses, or None for the cells it does not save (merged
      cells, and with a warning every other class such as error cells). With
      `richIdAsValue` a rich-text cell also writes its rich id as its value, as
      `Cell._to_buffer` does; without it the value part of rich text is empty. A decimal that does not fit the
      decimal128 layout overflows a bytearray slot (ValueError); a rich-text cell without a
      rich id cannot be packed (struct error). */
  function ValuePartOf(c: SaveCell, richIdAsValue: bool): (r: Result<Option<ValuePart>>)
    ensures c.value.SaveNumber? && !D.Encodable(c.value.d) ==> r == Err(ValueError)
    ensures c.value.SaveRichText? && RichId !in c.ids ==> r == Err(StructError)
    ensures c.value in {SaveMerged, SaveError} <==> r == Ok(None)
    ensures r.Ok? && r.value.Some? && r.value.value.bit.Some? ==> r.value.value.bit.value < 4
  {
    match c.value
    case SaveNumber(d, currency) =>
      if !D.Encodable(d) then Err(ValueError)
      else
        var cellType := if currency then CellTypes.CurrencyCellType else CellTypes.NumberCellType;
        Ok(Some(ValuePart(Some(0), cellType, D.Encode(d))))
    case SaveText(key) =>
      var bytes :- Pack(key, 4, true);
      Ok(Some(ValuePart(Some(3), CellTypes.TextCellType, bytes)))
    case SaveDate(seconds) => Ok(Some(ValuePart(Some(2), CellTypes.DateCellType, seconds)))
    case SaveBool(double) => Ok(Some(ValuePart(Some(1), CellTypes.BoolCellType, double)))
    case SaveDuration(double) => Ok(Some(ValuePart(Some(1), CellTypes.DurationCellType, double)))
    case SaveEmpty => Ok(Some(ValuePart(None, CellTypes.EmptyCellValueType, [])))
    case SaveMerged => Ok(None)
    case SaveRichText =>
      if RichId !in c.ids then Err(StructError)
      else if richIdAsValue then
        var bytes :- Pack(c.ids[RichId], 4, true);
        Ok(Some(ValuePart(None, CellTypes.AutomaticCellType, bytes)))
      else Ok(Some(ValuePart(None, CellTypes.AutomaticCellType, [])))
    case SaveError => Ok(None)
  }

  /** The bytes of one id: `pack("<i", id)` when the cell carries it, else nothing. */
  function IdField(ids: map<IdName, int>, name: IdName): (r: Result<seq<byte>>)
    ensures r.Err? <==> name in ids && !InRange(ids[name], 4, true)
    ensures r.Ok? ==> r.value == if name in ids then Pack(ids[name], 4, true).value else []
  {
    if name in ids then Pack(ids[name], 4, true) else Ok([])
  }

  /** The bytes of the ids among the first k of an order that the cell carries. */
  function IdsWritten(ids: map<IdName, int>, order: seq<(IdName, nat)>, k: nat): (r: Result<seq<byte>>)
    requires k <= |order|
  {
    if k == 0 then Ok([])
    else
      var prev :- IdsWritten(ids, order, k - 1);
      var bytes :- IdField(ids, order[k - 1].0);
      Ok(prev + bytes)
  }

  /** Every flag bit of an order lies below `width`. */
  predicate Fits(order: seq<(IdName, nat)>, width: nat)
  {
    forall j | 0 <= j < |order| :: order[j].1 < width
  }

  /** The flag bits after or-ing in the bits of the first k ids of an order that the cell
      carries. */
  function SetBits(bits: seq<bool>, ids: map<IdName, int>, order: seq<(IdName, nat)>, k: nat)
    : (r: seq<bool>)
    requires k <= |order| && Fits(order, |bits|)
    ensures |r| == |bits|
  {
    if k == 0 then bits
    else
      var prev := SetBits(bits, ids, order, k - 1);
      if order[k - 1].0 in ids then prev[order[k - 1].1 := true] else prev
  }

  /** The value's flag bit, or none. */
  function ValueBits(bit: Option<nat>): (r: seq<bool>)
    ensures |r| == FlagWidth
  {
    seq(FlagWidth, k => bit == Some(k))
  }

  /** The extras byte: which format ids the cell carries, and whether it has a string id. */
  function Extras(ids: map<IdName, int>): (r: byte)
  {
    (if NumFormatId in ids then 1 else 0) + (if CurrencyFormatId in ids then 2 else 0)
      + (if DurationFormatId in ids then 4 else 0) + (if DateFormatId in ids then 8 else 0)
      + (if BoolFormatId in ids then 0x20 else 0) + (if StringId in ids then 0x80 else 0)
  }

  /** The flags word written at bytes 8-11: `pack("<i", flags)`. Its bits stay below bit 19,
      so the signed packing is the unsigned little-endian one. */
  function FlagBytes(bits: seq<bool>): (r: seq<byte>)
    ensures |r| == 4
  {
    ToLittleEndian(Word(bits), 4)
  }

  /** The header: version 5, the cell type, the extras byte and the flags word. */
  function Header(cellType: byte, extras: byte, bits: seq<bool>): (r: seq<byte>)
    ensures |r| == 12
  {
    [5, cellType, 0, 0, 0, 0, extras, 0] + FlagBytes(bits)
  }

  /** `_to_buffer` as a value: the header, the value part, then the ids in write order.
      `richIdAsValue` selects what `Cell._to_buffer` does for rich text (see `ValuePartOf`). */
  function Encoded(c: SaveCell, richIdAsValue: bool): (r: Result<Option<seq<byte>>>)
    ensures r == Ok(None) <==> c.value in {SaveMerged, SaveError}
    ensures r.Ok? && r.value.Some? ==> |r.value.value| >= 12 && r.value.value[0] == 5
  {
    var part :- ValuePartOf(c, richIdAsValue);
    if part.None? then Ok(None)
    else
      var idBytes :- IdsWritten(c.ids, WriteOrder, |WriteOrder|);
      WriteOrderFits();
      var bits := SetBits(ValueBits(part.value.bit), c.ids, WriteOrder, |WriteOrder|);
      Ok(Some(Header(part.value.cellType, Extras(c.ids), bits) + part.value.bytes + idBytes))
  }

  /** The buffer `Cell._to_buffer` writes: a rich-text cell carries its rich id twice. */
  function BufferAsWritten(c: SaveCell): Result<Option<seq<byte>>>
  {
    Encoded(c, true)
  }

  /** The buffer as evidently intended: the rich id is written once, under flag 0x10. */
  function Buffer(c: SaveCell): Result<Option<seq<byte>>>
  {
    Encoded(c, false)
  }

  /** `_to_buffer` with the corrected rich-text value: the value part, then the ids. */
  method ToBuffer(c: SaveCell) returns (r: Result<Option<seq<byte>>>)
    ensures r == Buffer(c)
  {
    var part := ValuePartOf(c, false);
    if part.Err? {
      return Err(part.error);
    }
    if part.value.None? {
      return Ok(None);
    }
    var p := part.value.value;
    WriteOrderIncreasing();
    var ids, bits := WriteIds(c.ids, ValueBits(p.bit));
    if ids.Err? {
      return Err(ids.error);
    }
    EncodedOf(c, false, p, ids.value, bits);
    return Ok(Some(Header(p.cellType, Extras(c.ids), bits) + p.bytes + ids.value));
  }

  /** Each id the cell carries appended in write order while its flag bit is set. */
  method WriteIds(ids: map<IdName, int>, valueBits: seq<bool>) returns (r: Result<seq<byte>>, bits: seq<bool>)
    requires Fits(WriteOrder, |valueBits|)
    ensures r == IdsWritten(ids, WriteOrder, |WriteOrder|)
    ensures bits == SetBits(valueBits, ids, WriteOrder, |WriteOrder|)
  {
    bits := valueBits;
    var idBytes: seq<byte> := [];
    for k := 0 to |WriteOrder|
      invariant IdsWritten(ids, WriteOrder, k) == Ok(idBytes)
      invariant bits == SetBits(valueBits, ids, WriteOrder, k)
    {
      var (name, bit) := WriteOrder[k];
      var bytes := IdField(ids, name);
      if bytes.Err? {
        IdsWrittenFailed(ids, WriteOrder, k + 1, |WriteOrder|);
        bits := SetBits(valueBits, ids, WriteOrder, |WriteOrder|);
        return Err(bytes.error), bits;
      }
      idBytes := idBytes + bytes.value;
      if name in ids {
        bits := bits[bit := true];
      }
    }
    return Ok(idBytes), bits;
  }

  lemma {:induction false} IdsWrittenFailed(ids: map<IdName, int>, order: seq<(IdName, nat)>, n: nat, m: nat)
    requires n <= m <= |order| && IdsWritten(ids, order, n).Err?
    ensures IdsWritten(ids, order, m) == IdsWritten(ids, order, n)
    decreases m
  {
    if m > n {
      IdsWrittenFailed(ids, order, n, m - 1);
    }
  }

  // ---- saving then loading ----

  /** The class a saved cell loads back as. */
  function KindSaved(v: SaveValue): Option<Kind>
  {
    match v
    case SaveNumber(_, currency) => Some(if currency then CurrencyKind else NumberKind)
    case SaveText(_) => Some(TextKind)
    case SaveDate(_) => Some(DateKind)
    case SaveBool(_) => Some(BoolKind)
    case SaveDuration(_) => Some(DurationKind)
    case SaveEmpty => Some(EmptyKind)
    case SaveRichText => Some(RichTextKind)
    case _ => None
  }

  /** The fields the value part of a saved cell loads back as. */
  function ValueFields(v: SaveValue): Fields
  {
    match v
    case SaveNumber(d, _) => NoFields.(d128 := Some(d))
    case SaveText(key) => NoFields.(ids := map[StringId := key])
    case SaveDate(seconds) => NoFields.(seconds := Some(seconds))
    case SaveBool(double) => NoFields.(double := Some(double))
    case SaveDuration(double) => NoFields.(double := Some(double))
    case _ => NoFields
  }

  /** The ids written after the value: every id the cell carries except its string id. */
  function Carried(ids: map<IdName, int>): map<IdName, int>
  {
    map n | n in ids && n != StringId :: ids[n]
  }

  /** The fields a saved cell should load back as. */
  function Loaded(c: SaveCell): Fields
  {
    var v := ValueFields(c.value);
    v.(ids := v.ids + Carried(c.ids))
  }

  /** The ids among the first k of an order that the cell carries. */
  function IdMap(ids: map<IdName, int>, order: seq<(IdName, nat)>, k: nat): map<IdName, int>
    requires k <= |order|
  {
    if k == 0 then map[]
    else
      var name := order[k - 1].0;
      if name in ids then IdMap(ids, order, k - 1)[name := ids[name]] else IdMap(ids, order, k - 1)
  }

  /** What a saved cell has loaded after reading its value and its first j ids. */
  function Partial(c: SaveCell, j: nat): Fields
    requires j <= |WriteOrder|
  {
    var v := ValueFields(c.value);
    v.(ids := v.ids + IdMap(c.ids, WriteOrder, j))
  }

  /** The step of the reader's layout that reads the j-th id of the write order. */
  function Pos(j: nat): nat
  {
    if j < 3 then 4 + j else if j < 6 then 5 + j else 6 + j
  }

  lemma PosField(j: nat)
    requires j < |WriteOrder|
    ensures Pos(j) < |CellLayout|
    ensures CellLayout[Pos(j)] == Field(WriteOrder[j].1, 4, IdSlot(WriteOrder[j].0))
  {
  }

  /** The write order's bits increase, so they are distinct... */
  lemma WriteOrderFits()
    ensures Fits(WriteOrder, FlagWidth)
  {
  }

  lemma WriteOrderIncreasing()
    ensures Fits(WriteOrder, FlagWidth)
    ensures forall i | 0 <= i < |WriteOrder| - 1 :: WriteOrder[i].1 < WriteOrder[i + 1].1
  {
  }

  /** ... and none of them is a value bit or a skipped bit. */
  lemma WriteOrderAvoids()
    ensures forall j | 0 <= j < |WriteOrder| ::
      WriteOrder[j].1 >= 4 && WriteOrder[j].1 != 7 && WriteOrder[j].1 != 8 && WriteOrder[j].1 != 11
  {
  }

  lemma {:induction false} IncreasingBits(order: seq<(IdName, nat)>, i: nat, j: nat)
    requires forall k | 0 <= k < |order| - 1 :: order[k].1 < order[k + 1].1
    requires i < j < |order|
    ensures order[i].1 < order[j].1
    decreases j - i
  {
    if i + 1 < j {
      IncreasingBits(order, i, j - 1);
    }
  }

  /** Where each id other than the string id sits in the write order. */
  function OrderIndex(n: IdName): (j: nat)
    requires n != StringId
    ensures j < |WriteOrder| && WriteOrder[j].0 == n
  {
    match n
    case RichId => 0 case CellStyleId => 1 case TextStyleId => 2 case FormulaId => 3
    case ControlId => 4 case SuggestId => 5 case NumFormatId => 6
    case CurrencyFormatId => 7 case DateFormatId => 8 case DurationFormatId => 9
    case TextFormatId => 10 case BoolFormatId => 11
  }

  /** A bit of the written word is set when the start had it or a carried id sets it. */
  lemma {:induction false} SetBitsAt(bits: seq<bool>, ids: map<IdName, int>, order: seq<(IdName, nat)>, k: nat, p: nat)
    requires k <= |order| && Fits(order, |bits|) && p < |bits|
    ensures SetBits(bits, ids, order, k)[p]
      <==> bits[p] || exists j | 0 <= j < k :: order[j].1 == p && order[j].0 in ids
  {
    if k > 0 {
      SetBitsAt(bits, ids, order, k - 1, p);
      if exists j | 0 <= j < k :: order[j].1 == p && order[j].0 in ids {
        var j :| 0 <= j < k && order[j].1 == p && order[j].0 in ids;
        if j < k - 1 {
          assert SetBits(bits, ids, order, k - 1)[p];
        }
      }
    }
  }

  /** The ids an order's prefix collects are the carried ones it names. */
  lemma {:induction false} IdMapAt(ids: map<IdName, int>, order: seq<(IdName, nat)>, k: nat, n: IdName)
    requires k <= |order|
    ensures n in IdMap(ids, order, k) <==> n in ids && exists j | 0 <= j < k :: order[j].0 == n
    ensures n in IdMap(ids, order, k) ==> IdMap(ids, order, k)[n] == ids[n]
  {
    if k > 0 {
      IdMapAt(ids, order, k - 1, n);
      if n in ids && exists j | 0 <= j < k :: order[j].0 == n {
        var j :| 0 <= j < k && order[j].0 == n;
        if j < k - 1 {
          assert n in IdMap(ids, order, k - 1);
        }
      }
    }
  }

  lemma {:induction false} IdsWrittenPrefix(ids: map<IdName, int>, order: seq<(IdName, nat)>, j: nat, k: nat)
    requires j <= k <= |order| && IdsWritten(ids, order, k).Ok?
    ensures IdsWritten(ids, order, j).Ok?
    ensures |IdsWritten(ids, order, j).value| <= |IdsWritten(ids, order, k).value|
    ensures IdsWritten(ids, order, k).value[..|IdsWritten(ids, order, j).value|]
      == IdsWritten(ids, order, j).value
    decreases k
  {
    if j < k {
      IdsWrittenPrefix(ids, order, j, k - 1);
      var prev := IdsWritten(ids, order, k - 1).value;
      var w := IdsWritten(ids, order, j).value;
      assert IdsWritten(ids, order, k).value[..|prev|] == prev;
      assert prev[..|w|] == w;
    }
  }

  lemma WordFitsFourBytes()
    ensures Pow2(FlagWidth) < Pow256(4)
  {
    assert Pow2(4) == 16 && Pow2(8) == 256 && Pow2(12) == 4096 && Pow2(16) == 65536;
    assert Pow2(FlagWidth) == 0x80000;
    assert Pow256(2) == 65536 && Pow256(4) == 0x1_0000_0000;
  }

  /** The parts of a saved buffer: header, value bytes, id bytes, and its flag bits. */
  predicate SavedLayout(c: SaveCell, part: ValuePart, ids: seq<byte>, b: seq<byte>)
  {
    ValuePartOf(c, false) == Ok(Some(part)) && IdsWritten(c.ids, WriteOrder, |WriteOrder|) == Ok(ids)
    && |b| == 12 + |part.bytes| + |ids|
    && b[0] == 5 && b[1] == part.cellType && b[6..8] == [Extras(c.ids), 0]
    && b[12..12 + |part.bytes|] == part.bytes && b[12 + |part.bytes|..] == ids
    && FlagsSaved(FlagsWord(b), c.ids, part.bit)
  }

  /** The flag bits of the written word: the value's bit and the bits of the carried ids. */
  predicate FlagsSaved(fl: nat, ids: map<IdName, int>, bit: Option<nat>)
  {
    (forall j | 0 <= j < |WriteOrder| :: TestBit(fl, WriteOrder[j].1) <==> WriteOrder[j].0 in ids)
    && (forall q | q in {0, 1, 2, 3} :: TestBit(fl, q) <==> bit == Some(q))
    && !TestBit(fl, 7) && !TestBit(fl, 8) && !TestBit(fl, 11)
  }

  /** With distinct bits, each id's bit ends up set exactly when the cell carries it. */
  lemma IdBitsSet(start: seq<bool>, ids: map<IdName, int>, order: seq<(IdName, nat)>, j: nat)
    requires Fits(order, |start|) && j < |order| && !start[order[j].1]
    requires forall k | 0 <= k < |order| - 1 :: order[k].1 < order[k + 1].1
    ensures SetBits(start, ids, order, |order|)[order[j].1] <==> order[j].0 in ids
  {
    var q := order[j].1;
    SetBitsAt(start, ids, order, |order|, q);
    forall i | 0 <= i < |order| && order[i].1 == q
      ensures i == j
    {
      if i < j {
        IncreasingBits(order, i, j);
      } else if j < i {
        IncreasingBits(order, j, i);
      }
    }
  }

  /** A bit no id of the order uses keeps its starting value. */
  lemma OtherBitsKept(start: seq<bool>, ids: map<IdName, int>, order: seq<(IdName, nat)>, q: nat)
    requires Fits(order, |start|) && q < |start|
    requires forall j | 0 <= j < |order| :: order[j].1 != q
    ensures SetBits(start, ids, order, |order|)[q] == start[q]
  {
    SetBitsAt(start, ids, order, |order|, q);
  }

  lemma SavedIdFlags(ids: map<IdName, int>, bit: Option<nat>)
    requires bit.Some? ==> bit.value < 4
    ensures var bits := SetBits(ValueBits(bit), ids, WriteOrder, |WriteOrder|);
      forall j | 0 <= j < |WriteOrder| :: TestBit(Word(bits), WriteOrder[j].1) <==> WriteOrder[j].0 in ids
  {
    WriteOrderIncreasing();
    WriteOrderAvoids();
    IdFlagsSet(ValueBits(bit), ids, WriteOrder);
  }

  /** In the word of the bits, each id's bit is set exactly when the cell carries it. */
  lemma IdFlagsSet(start: seq<bool>, ids: map<IdName, int>, order: seq<(IdName, nat)>)
    requires Fits(order, |start|) && forall j | 0 <= j < |order| :: !start[order[j].1]
    requires forall k | 0 <= k < |order| - 1 :: order[k].1 < order[k + 1].1
    ensures var bits := SetBits(start, ids, order, |order|);
      forall j | 0 <= j < |order| :: TestBit(Word(bits), order[j].1) <==> order[j].0 in ids
  {
    var bits := SetBits(start, ids, order, |order|);
    forall j | 0 <= j < |order|
      ensures TestBit(Word(bits), order[j].1) <==> order[j].0 in ids
    {
      TestBitWord(bits, order[j].1);
      IdBitsSet(start, ids, order, j);
    }
  }

  lemma SavedValueFlags(ids: map<IdName, int>, bit: Option<nat>, q: nat)
    requires q in {0, 1, 2, 3, 7, 8, 11}
    ensures TestBit(Word(SetBits(ValueBits(bit), ids, WriteOrder, |WriteOrder|)), q) <==> bit == Some(q)
  {
    WriteOrderIncreasing();
    WriteOrderAvoids();
    var start := ValueBits(bit);
    TestBitWord(SetBits(start, ids, WriteOrder, |WriteOrder|), q);
    OtherBitsKept(start, ids, WriteOrder, q);
  }

  lemma SavedFlags(ids: map<IdName, int>, bit: Option<nat>)
    requires bit.Some? ==> bit.value < 4
    ensures FlagsSaved(Word(SetBits(ValueBits(bit), ids, WriteOrder, |WriteOrder|)), ids, bit)
  {
    SavedIdFlags(ids, bit);
    SavedValueFlags(ids, bit, 0);
    SavedValueFlags(ids, bit, 1);
    SavedValueFlags(ids, bit, 2);
    SavedValueFlags(ids, bit, 3);
    SavedValueFlags(ids, bit, 7);
    SavedValueFlags(ids, bit, 8);
    SavedValueFlags(ids, bit, 11);
  }

  lemma SavedParts(c: SaveCell, b: seq<byte>)
    requires Buffer(c) == Ok(Some(b))
    ensures ValuePartOf(c, false).Ok? && ValuePartOf(c, false).value.Some?
    ensures IdsWritten(c.ids, WriteOrder, |WriteOrder|).Ok?
    ensures SavedLayout(c, ValuePartOf(c, false).value.value, IdsWritten(c.ids, WriteOrder, |WriteOrder|).value, b)
  {
    var part := ValuePartOf(c, false).value.value;
    var ids := IdsWritten(c.ids, WriteOrder, |WriteOrder|).value;
    WriteOrderIncreasing();
    var bits := SetBits(ValueBits(part.bit), c.ids, WriteOrder, |WriteOrder|);
    EncodedOf(c, false, part, ids, bits);
    HeaderLayout(b, part.cellType, Extras(c.ids), bits, part.bytes, ids);
    WordFitsFourBytes();
    LittleEndianOfBytes(Word(bits), 4);
    SavedFlags(c.ids, part.bit);
  }

  /** Where the parts of a written buffer sit. */
  lemma HeaderLayout(b: seq<byte>, cellType: byte, extras: byte, bits: seq<bool>, value: seq<byte>, ids: seq<byte>)
    requires b == Header(cellType, extras, bits) + value + ids
    ensures |b| == 12 + |value| + |ids| && b[0] == 5 && b[1] == cellType && b[6..8] == [extras, 0]
    ensures b[8..12] == FlagBytes(bits)
    ensures b[12..12 + |value|] == value && b[12 + |value|..] == ids
  {
  }

  // The walk over a saved buffer, step group by step group. Each lemma is stated over the
  // bytes and flag bits it needs rather than over the whole saved cell.

  /** The first four steps of both layouts read the value: bits 0 to 3. */
  lemma ValueSteps()
    ensures |CellLayout| > 4
    ensures CellLayout[0] == Field(0, 16, D128Slot) && CellLayout[1] == Field(1, 8, DoubleSlot)
    ensures CellLayout[2] == Field(2, 8, SecondsSlot) && CellLayout[3] == Field(3, 4, IdSlot(StringId))
  {
  }

  /** A step whose bit is clear changes nothing. */
  lemma WalkSkip(b: seq<byte>, fl: nat, layout: seq<Step>, n: nat, f: Fields, off: nat)
    requires n < |layout| && layout[n].Field? && !TestBit(fl, layout[n].bit)
    requires Walk(b, fl, layout, n) == Ok((f, off))
    ensures Walk(b, fl, layout, n + 1) == Ok((f, off))
  {
  }

  /** A step whose bit is set reads its slot and moves past it. */
  lemma WalkRead(b: seq<byte>, fl: nat, layout: seq<Step>, n: nat, f: Fields, off: nat, g: Fields)
    requires n < |layout| && layout[n].Field? && TestBit(fl, layout[n].bit)
    requires Walk(b, fl, layout, n) == Ok((f, off))
    requires ReadSlot(b, off, layout[n].size, layout[n].slot, f) == Ok(g)
    ensures Walk(b, fl, layout, n + 1) == Ok((g, off + layout[n].size))
  {
  }

  lemma WalkStart(b: seq<byte>, fl: nat, layout: seq<Step>)
    ensures Walk(b, fl, layout, 0) == Ok((NoFields, 12))
  {
  }

  /** A buffer whose value bits 0-3 are clear reads no value. */
  lemma WalkNoValue(b: seq<byte>, fl: nat)
    requires !TestBit(fl, 0) && !TestBit(fl, 1) && !TestBit(fl, 2) && !TestBit(fl, 3)
    ensures Walk(b, fl, CellLayout, 4) == Ok((NoFields, 12))
  {
    ValueSteps();
    WalkStart(b, fl, CellLayout);
    WalkSkip(b, fl, CellLayout, 0, NoFields, 12);
    WalkSkip(b, fl, CellLayout, 1, NoFields, 12);
    WalkSkip(b, fl, CellLayout, 2, NoFields, 12);
    WalkSkip(b, fl, CellLayout, 3, NoFields, 12);
  }

  /** A buffer with only bit 0 set reads its decimal128. */
  lemma WalkNumber(b: seq<byte>, fl: nat, d: D.Decimal)
    requires D.Encodable(d) && |b| >= 28 && b[12..28] == D.Encode(d)
    requires TestBit(fl, 0) && !TestBit(fl, 1) && !TestBit(fl, 2) && !TestBit(fl, 3)
    ensures Walk(b, fl, CellLayout, 4) == Ok((NoFields.(d128 := Some(d)), 28))
  {
    D.UnpackEncode(d);
    var f := NoFields.(d128 := Some(d));
    ValueSteps();
    WalkStart(b, fl, CellLayout);
    WalkRead(b, fl, CellLayout, 0, NoFields, 12, f);
    WalkSkip(b, fl, CellLayout, 1, f, 28);
    WalkSkip(b, fl, CellLayout, 2, f, 28);
    WalkSkip(b, fl, CellLayout, 3, f, 28);
  }

  /** A buffer with only bit 1 set reads its double. */
  lemma WalkDouble(b: seq<byte>, fl: nat, x: Double)
    requires |b| >= 20 && b[12..20] == x
    requires !TestBit(fl, 0) && TestBit(fl, 1) && !TestBit(fl, 2) && !TestBit(fl, 3)
    ensures Walk(b, fl, CellLayout, 4) == Ok((NoFields.(double := Some(x)), 20))
  {
    var f := NoFields.(double := Some(x));
    ValueSteps();
    WalkStart(b, fl, CellLayout);
    WalkSkip(b, fl, CellLayout, 0, NoFields, 12);
    WalkRead(b, fl, CellLayout, 1, NoFields, 12, f);
    WalkSkip(b, fl, CellLayout, 2, f, 20);
    WalkSkip(b, fl, CellLayout, 3, f, 20);
  }

  /** A buffer with only bit 2 set reads its seconds. */
  lemma WalkSeconds(b: seq<byte>, fl: nat, x: Double)
    requires |b| >= 20 && b[12..20] == x
    requires !TestBit(fl, 0) && !TestBit(fl, 1) && TestBit(fl, 2) && !TestBit(fl, 3)
    ensures Walk(b, fl, CellLayout, 4) == Ok((NoFields.(seconds := Some(x)), 20))
  {
    var f := NoFields.(seconds := Some(x));
    ValueSteps();
    WalkStart(b, fl, CellLayout);
    WalkSkip(b, fl, CellLayout, 0, NoFields, 12);
    WalkSkip(b, fl, CellLayout, 1, NoFields, 12);
    WalkRead(b, fl, CellLayout, 2, NoFields, 12, f);
    WalkSkip(b, fl, CellLayout, 3, f, 20);
  }

  /** A buffer with only bit 3 set reads its string id. */
  lemma WalkText(b: seq<byte>, fl: nat, key: int)
    requires InRange(key, 4, true) && |b| >= 16 && b[12..16] == Pack(key, 4, true).value
    requires !TestBit(fl, 0) && !TestBit(fl, 1) && !TestBit(fl, 2) && TestBit(fl, 3)
    ensures Walk(b, fl, CellLayout, 4) == Ok((NoFields.(ids := map[StringId := key]), 16))
  {
    UnpackPack(key, 4, true);
    var f := NoFields.(ids := map[StringId := key]);
    assert NoFields.ids[StringId := key] == map[StringId := key];
    ValueSteps();
    WalkStart(b, fl, CellLayout);
    WalkSkip(b, fl, CellLayout, 0, NoFields, 12);
    WalkSkip(b, fl, CellLayout, 1, NoFields, 12);
    WalkSkip(b, fl, CellLayout, 2, NoFields, 12);
    WalkRead(b, fl, CellLayout, 3, NoFields, 12, f);
  }

  /** Reading the value part of a saved buffer gives the value's fields. */
  lemma ValueWalk(c: SaveCell, part: ValuePart, b: seq<byte>, fl: nat)
    requires ValuePartOf(c, false) == Ok(Some(part))
    requires |b| >= 12 + |part.bytes| && b[12..12 + |part.bytes|] == part.bytes
    requires forall q | q in {0, 1, 2, 3} :: TestBit(fl, q) <==> part.bit == Some(q)
    ensures Walk(b, fl, CellLayout, 4) == Ok((ValueFields(c.value), 12 + |part.bytes|))
  {
    assert TestBit(fl, 0) <==> part.bit == Some(0);
    assert TestBit(fl, 1) <==> part.bit == Some(1);
    assert TestBit(fl, 2) <==> part.bit == Some(2);
    assert TestBit(fl, 3) <==> part.bit == Some(3);
    if c.value.SaveNumber? {
      WalkNumberValue(c, part, b, fl);
    } else if c.value.SaveText? {
      WalkTextValue(c, part, b, fl);
    } else if c.value.SaveDate? {
      WalkDateValue(c, part, b, fl);
    } else {
      WalkNarrowValue(c, part, b, fl);
    }
  }

  /** That walk for a number. */
  lemma WalkNumberValue(c: SaveCell, part: ValuePart, b: seq<byte>, fl: nat)
    requires c.value.SaveNumber?
    requires ValuePartOf(c, false) == Ok(Some(part))
    requires |b| >= 12 + |part.bytes| && b[12..12 + |part.bytes|] == part.bytes
    requires forall q :: 0 <= q < 4 ==> (TestBit(fl, q) <==> part.bit == Some(q))
    ensures Walk(b, fl, CellLayout, 4) == Ok((ValueFields(c.value), 12 + |part.bytes|))
  {
    NumberPart(c, part);
    WalkNumber(b, fl, c.value.d);
  }

  /** That walk for a string. */
  lemma WalkTextValue(c: SaveCell, part: ValuePart, b: seq<byte>, fl: nat)
    requires c.value.SaveText?
    requires ValuePartOf(c, false) == Ok(Some(part))
    requires |b| >= 12 + |part.bytes| && b[12..12 + |part.bytes|] == part.bytes
    requires forall q :: 0 <= q < 4 ==> (TestBit(fl, q) <==> part.bit == Some(q))
    ensures Walk(b, fl, CellLayout, 4) == Ok((ValueFields(c.value), 12 + |part.bytes|))
  {
    TextPart(c, part);
    WalkText(b, fl, c.value.key);
  }

  /** That walk for a date. */
  lemma WalkDateValue(c: SaveCell, part: ValuePart, b: seq<byte>, fl: nat)
    requires c.value.SaveDate?
    requires ValuePartOf(c, false) == Ok(Some(part))
    requires |b| >= 12 + |part.bytes| && b[12..12 + |part.bytes|] == part.bytes
    requires forall q :: 0 <= q < 4 ==> (TestBit(fl, q) <==> part.bit == Some(q))
    ensures Walk(b, fl, CellLayout, 4) == Ok((ValueFields(c.value), 12 + |part.bytes|))
  {
    assert part.bit == Some(2) && part.bytes == c.value.seconds;
    WalkSeconds(b, fl, c.value.seconds);
  }

  lemma NumberPart(c: SaveCell, part: ValuePart)
    requires c.value.SaveNumber? && ValuePartOf(c, false) == Ok(Some(part))
    ensures D.Encodable(c.value.d) && part.bit == Some(0) && part.bytes == D.Encode(c.value.d)
  {
  }

  lemma TextPart(c: SaveCell, part: ValuePart)
    requires c.value.SaveText? && ValuePartOf(c, false) == Ok(Some(part))
    ensures InRange(c.value.key, 4, true) && part.bit == Some(3) && part.bytes == Pack(c.value.key, 4, true).value
  {
  }

  /** That walk for a boolean, a duration, an empty cell or rich text. */
  lemma WalkNarrowValue(c: SaveCell, part: ValuePart, b: seq<byte>, fl: nat)
    requires !(c.value.SaveNumber? || c.value.SaveText? || c.value.SaveDate?)
    requires ValuePartOf(c, false) == Ok(Some(part))
    requires |b| >= 12 + |part.bytes| && b[12..12 + |part.bytes|] == part.bytes
    requires forall q :: 0 <= q < 4 ==> (TestBit(fl, q) <==> part.bit == Some(q))
    ensures Walk(b, fl, CellLayout, 4) == Ok((ValueFields(c.value), 12 + |part.bytes|))
  {
    match c.value
    case SaveBool(double) =>
      assert part.bit == Some(1) && part.bytes == double;
      WalkDouble(b, fl, double);
    case SaveDuration(double) =>
      assert part.bit == Some(1) && part.bytes == double;
      WalkDouble(b, fl, double);
    case SaveEmpty =>
      assert part.bit == None && part.bytes == [];
      WalkNoValue(b, fl);
    case SaveRichText =>
      assert part.bit == None && part.bytes == [];
      WalkNoValue(b, fl);
  }

  /** The bytes of the i-th id of an order sit right after those of the ids before it. */
  lemma IdBytesAt(ids: map<IdName, int>, order: seq<(IdName, nat)>, i: nat)
    requires i < |order| && IdsWritten(ids, order, |order|).Ok?
    ensures IdsWritten(ids, order, i).Ok? && IdsWritten(ids, order, i + 1).Ok?
    ensures var prev := IdsWritten(ids, order, i).value;
      var field := IdField(ids, order[i].0).value;
      IdsWritten(ids, order, i + 1).value == prev + field
      && |prev| + |field| <= |IdsWritten(ids, order, |order|).value|
      && IdsWritten(ids, order, |order|).value[|prev|..|prev| + |field|] == field
  {
    IdsWrittenPrefix(ids, order, i + 1, |order|);
    var all := IdsWritten(ids, order, |order|).value;
    var here := IdsWritten(ids, order, i + 1).value;
    var prev := IdsWritten(ids, order, i).value;
    assert all[..|here|] == here;
    assert here[|prev|..] == IdField(ids, order[i].0).value;
  }

  /** The fields after reading the first j ids of an order on top of `f`. */
  function IdsRead(f: Fields, ids: map<IdName, int>, order: seq<(IdName, nat)>, j: nat): Fields
    requires j <= |order|
  {
    f.(ids := f.ids + IdMap(ids, order, j))
  }

  /** Reading a 4-byte id field where `pack("<i", v)` was written gives v. */
  lemma ReadId(b: seq<byte>, off: nat, name: IdName, v: int, g: Fields)
    requires InRange(v, 4, true) && off + 4 <= |b| && b[off..off + 4] == Pack(v, 4, true).value
    ensures ReadSlot(b, off, 4, IdSlot(name), g) == Ok(g.(ids := g.ids[name := v]))
  {
    UnpackPack(v, 4, true);
  }

  /** The step after n steps of a walk. */
  lemma WalkNext(b: seq<byte>, fl: nat, layout: seq<Step>, n: nat)
    requires n < |layout| && Walk(b, fl, layout, n).Ok?
    ensures Walk(b, fl, layout, n + 1)
      == StepAt(b, fl, layout[n], Walk(b, fl, layout, n).value.0, Walk(b, fl, layout, n).value.1)
  {
  }

  /** The bytes of the ids of an order that the cell carries sit in b from `start` on. */
  predicate IdBytesFrom(b: seq<byte>, ids: map<IdName, int>, order: seq<(IdName, nat)>, start: nat)
  {
    IdsWritten(ids, order, |order|).Ok? && start <= |b| && b[start..] == IdsWritten(ids, order, |order|).value
  }

  /** One id step of a walk: step p reads the i-th id of the order, and does so exactly
      when the cell carries it. */
  lemma IdStep(b: seq<byte>, fl: nat, ids: map<IdName, int>, order: seq<(IdName, nat)>, layout: seq<Step>,
               f: Fields, start: nat, i: nat, p: nat)
    requires IdBytesFrom(b, ids, order, start) && i < |order|
    requires p < |layout| && layout[p] == Field(order[i].1, 4, IdSlot(order[i].0))
    requires TestBit(fl, order[i].1) <==> order[i].0 in ids
    requires IdsWritten(ids, order, i).Ok?
    requires Walk(b, fl, layout, p) == Ok((IdsRead(f, ids, order, i), start + |IdsWritten(ids, order, i).value|))
    ensures IdsWritten(ids, order, i + 1).Ok?
    ensures Walk(b, fl, layout, p + 1)
      == Ok((IdsRead(f, ids, order, i + 1), start + |IdsWritten(ids, order, i + 1).value|))
  {
    IdBytesAt(ids, order, i);
    WalkNext(b, fl, layout, p);
    if order[i].0 in ids {
      IdStepPresent(b, ids, order, f, start, i);
    } else {
      assert IdsRead(f, ids, order, i + 1) == IdsRead(f, ids, order, i);
    }
  }

  /** Reading the i-th id of an order that the cell carries. */
  lemma IdStepPresent(b: seq<byte>, ids: map<IdName, int>, order: seq<(IdName, nat)>,
                      f: Fields, start: nat, i: nat)
    requires IdBytesFrom(b, ids, order, start) && i < |order| && order[i].0 in ids
    ensures IdsWritten(ids, order, i).Ok? && IdsWritten(ids, order, i + 1).Ok?
    ensures var off := start + |IdsWritten(ids, order, i).value|;
      ReadSlot(b, off, 4, IdSlot(order[i].0), IdsRead(f, ids, order, i)) == Ok(IdsRead(f, ids, order, i + 1))
      && off + 4 == start + |IdsWritten(ids, order, i + 1).value|
  {
    IdBytesAt(ids, order, i);
    IdStepBytes(b, ids, order, start, i, IdsRead(f, ids, order, i), order[i].0, IdsWritten(ids, order, i).value);
    IdsReadStep(f, ids, order, i);
  }

  /** The i-th id's four bytes, read into any fields. */
  lemma IdStepBytes(b: seq<byte>, ids: map<IdName, int>, order: seq<(IdName, nat)>, start: nat, i: nat, g: Fields,
                    name: IdName, prev: seq<byte>)
    requires IdBytesFrom(b, ids, order, start) && i < |order| && name == order[i].0 && name in ids
    requires IdsWritten(ids, order, i) == Ok(prev)
    ensures IdsWritten(ids, order, i + 1).Ok?
    ensures ReadSlot(b, start + |prev|, 4, IdSlot(name), g) == Ok(g.(ids := g.ids[name := ids[name]]))
    ensures start + |prev| + 4 == start + |IdsWritten(ids, order, i + 1).value|
  {
    IdBytesAt(ids, order, i);
    var field := IdField(ids, name).value;
    var all := IdsWritten(ids, order, |order|).value;
    var v := ids[name];
    assert InRange(v, 4, true) && field == Pack(v, 4, true).value;
    IdFieldAt(b, all, start, prev, field, IdsWritten(ids, order, i + 1).value, name, v, g);
  }

  /** The four bytes of one id, found in the id bytes at the end of what came before. */
  lemma IdFieldAt(b: seq<byte>, all: seq<byte>, start: nat, prev: seq<byte>, field: seq<byte>, next: seq<byte>,
                  name: IdName, v: int, g: Fields)
    requires start <= |b| && b[start..] == all
    requires next == prev + field && |prev| + |field| <= |all| && all[|prev|..|prev| + |field|] == field
    requires InRange(v, 4, true) && field == Pack(v, 4, true).value
    ensures ReadSlot(b, start + |prev|, 4, IdSlot(name), g) == Ok(g.(ids := g.ids[name := v]))
    ensures |prev| + 4 == |next|
  {
    assert |field| == 4;
    IdPresent(b, all, start, |prev|, name, v, g);
  }

  /** Reading one more id the cell carries sets that id. */
  lemma IdsReadStep(f: Fields, ids: map<IdName, int>, order: seq<(IdName, nat)>, i: nat)
    requires i < |order| && order[i].0 in ids
    ensures var g := IdsRead(f, ids, order, i);
            IdsRead(f, ids, order, i + 1) == g.(ids := g.ids[order[i].0 := ids[order[i].0]])
  {
    var name := order[i].0;
    assert IdMap(ids, order, i + 1) == IdMap(ids, order, i)[name := ids[name]];
    UnionUpdate(f.ids, IdMap(ids, order, i), name, ids[name]);
  }

  /** Updating a union at a key is updating its right operand there. */
  lemma UnionUpdate(a: map<IdName, int>, m: map<IdName, int>, k: IdName, v: int)
    ensures (a + m)[k := v] == a + m[k := v]
  {
  }

  /** Reading an id whose bytes sit at `at` within the id bytes written from `start`. */
  lemma IdPresent(b: seq<byte>, all: seq<byte>, start: nat, at: nat, name: IdName, v: int, g: Fields)
    requires start <= |b| && b[start..] == all
    requires InRange(v, 4, true) && at + 4 <= |all| && all[at..at + 4] == Pack(v, 4, true).value
    ensures ReadSlot(b, start + at, 4, IdSlot(name), g) == Ok(g.(ids := g.ids[name := v]))
  {
    assert b[start + at..start + at + 4] == all[at..at + 4];
    ReadId(b, start + at, name, v, g);
  }

  /** A layout that reads the twelve ids of an order at the steps `Pos` gives, with the
      unused bit-7 field and the skip of bits 8 and 11 between them. */
  predicate ReadsIds(layout: seq<Step>, order: seq<(IdName, nat)>)
  {
    |order| == 12 && |layout| == 18
    && (forall i | 0 <= i < |order| :: layout[Pos(i)] == Field(order[i].1, 4, IdSlot(order[i].0)))
    && layout[7] == Field(7, 4, Unused) && layout[11] == SkipSetBits([8, 11])
  }

  lemma CellLayoutReadsIds()
    ensures ReadsIds(CellLayout, WriteOrder)
  {
    forall i | 0 <= i < |WriteOrder|
      ensures CellLayout[Pos(i)] == Field(WriteOrder[i].1, 4, IdSlot(WriteOrder[i].0))
    {
      PosField(i);
    }
  }

  /** A buffer holding, from `start`, the bytes of the ids of an order that the cell
      carries, with flags that mark exactly those ids and none of the skipped bits. */
  predicate IdsLaidOut(b: seq<byte>, fl: nat, ids: map<IdName, int>, layout: seq<Step>,
                       order: seq<(IdName, nat)>, start: nat)
  {
    ReadsIds(layout, order) && IdBytesFrom(b, ids, order, start)
    && (forall i | 0 <= i < |order| :: TestBit(fl, order[i].1) <==> order[i].0 in ids)
    && !TestBit(fl, 7) && !TestBit(fl, 8) && !TestBit(fl, 11)
  }

  /** The walk has reached the step of the j-th id, having read the ids before it. */
  predicate WalkedIds(b: seq<byte>, fl: nat, ids: map<IdName, int>, layout: seq<Step>,
                      order: seq<(IdName, nat)>, f: Fields, start: nat, j: nat)
    requires j <= |order| && Pos(j) <= |layout|
  {
    IdsWritten(ids, order, j).Ok?
    && Walk(b, fl, layout, Pos(j)) == Ok((IdsRead(f, ids, order, j), start + |IdsWritten(ids, order, j).value|))
  }

  /** Reading the first j ids of the order from `start`, where the ids the cell carries
      were written, collects them, with the offset just past their bytes. */
  lemma {:induction false} IdWalk(b: seq<byte>, fl: nat, ids: map<IdName, int>, layout: seq<Step>,
                                  order: seq<(IdName, nat)>, f: Fields, start: nat, j: nat)
    requires IdsLaidOut(b, fl, ids, layout, order, start)
    requires Walk(b, fl, layout, 4) == Ok((f, start))
    requires j <= |order|
    ensures Pos(j) <= |layout| && WalkedIds(b, fl, ids, layout, order, f, start, j)
  {
    if j == 0 {
      assert Pos(0) == 4 && IdsWritten(ids, order, 0) == Ok([]);
      assert IdsRead(f, ids, order, 0) == f;
    } else {
      IdWalk(b, fl, ids, layout, order, f, start, j - 1);
      IdWalkStep(b, fl, ids, layout, order, f, start, j - 1);
    }
  }

  /** From the i-th id's step to the next id's, across the skips between them. */
  lemma IdWalkStep(b: seq<byte>, fl: nat, ids: map<IdName, int>, layout: seq<Step>,
                   order: seq<(IdName, nat)>, f: Fields, start: nat, i: nat)
    requires IdsLaidOut(b, fl, ids, layout, order, start)
    requires i < |order| && Pos(i) <= |layout| && WalkedIds(b, fl, ids, layout, order, f, start, i)
    ensures Pos(i + 1) <= |layout| && WalkedIds(b, fl, ids, layout, order, f, start, i + 1)
  {
    IdStep(b, fl, ids, order, layout, f, start, i, Pos(i));
    if i == 2 {
      SkipStep(b, fl, layout, 7);
    } else if i == 5 {
      SkipStep(b, fl, layout, 11);
    } else {
      assert Pos(i + 1) == Pos(i) + 1;
    }
  }

  /** A step whose flag bits are all clear leaves the walk where it was. */
  lemma SkipStep(b: seq<byte>, fl: nat, layout: seq<Step>, n: nat)
    requires n < |layout| && Walk(b, fl, layout, n).Ok?
    requires layout[n].Field? ==> !TestBit(fl, layout[n].bit)
    requires layout[n].SkipSetBits? ==> forall k | 0 <= k < |layout[n].bits| :: !TestBit(fl, layout[n].bits[k])
    ensures Walk(b, fl, layout, n + 1) == Walk(b, fl, layout, n)
  {
    WalkNext(b, fl, layout, n);
    if layout[n].SkipSetBits? {
      NoneSet(fl, layout[n].bits);
    }
  }

  lemma {:induction false} NoneSet(fl: nat, bits: seq<nat>)
    requires forall k | 0 <= k < |bits| :: !TestBit(fl, bits[k])
    ensures SetCount(fl, bits) == 0
  {
    if bits != [] {
      NoneSet(fl, bits[1..]);
    }
  }

  /** No id of the write order is the string id. */
  lemma WriteOrderNames()
    ensures forall j | 0 <= j < |WriteOrder| :: WriteOrder[j].0 != StringId
  {
  }

  /** All of the write order collects exactly the carried ids. */
  lemma IdMapCarried(ids: map<IdName, int>)
    ensures IdMap(ids, WriteOrder, |WriteOrder|) == Carried(ids)
  {
    WriteOrderNames();
    var m := IdMap(ids, WriteOrder, |WriteOrder|);
    forall n: IdName
      ensures n in m <==> n in Carried(ids)
      ensures n in m ==> m[n] == ids[n]
    {
      IdMapAt(ids, WriteOrder, |WriteOrder|, n);
      if n != StringId {
        var j := OrderIndex(n);
      }
    }
  }

  /** What `Decode` returns once the walk and the class are known. */
  lemma DecodeOk(b: seq<byte>, kind: Kind, f: Fields, n: nat)
    requires |b| >= 12 && b[0] == 5 && KindOf(b[1]) == Some(kind)
    requires Walk(b, FlagsWord(b), CellLayout, |CellLayout|) == Ok((f, n))
    requires kind == DateKind ==> f.seconds.Some?
    requires kind in {BoolKind, DurationKind} ==> f.double.Some?
    ensures Decode(b).Ok?
    ensures Decode(b).value.kind == kind && Decode(b).value.fields == f
    ensures Decode(b).value.extras == LittleEndian(b[6..8])
  {
  }

  /** A saved buffer's header: version 5, the cell type of the saved class, the extras. */
  lemma SavedHeader(c: SaveCell, part: ValuePart, ids: seq<byte>, b: seq<byte>)
    requires SavedLayout(c, part, ids, b)
    ensures |b| >= 12 && b[0] == 5 && KindSaved(c.value).Some?
    ensures KindOf(b[1]) == KindSaved(c.value)
    ensures LittleEndian(b[6..8]) == Extras(c.ids)
  {
  }

  /** The walk over a saved buffer reads the saved value first... */
  lemma SavedValueWalk(c: SaveCell, part: ValuePart, ids: seq<byte>, b: seq<byte>)
    requires SavedLayout(c, part, ids, b)
    ensures Walk(b, FlagsWord(b), CellLayout, 4) == Ok((ValueFields(c.value), 12 + |part.bytes|))
  {
    ValueWalk(c, part, b, FlagsWord(b));
  }

  /** ... then the ids it carries, which is what the cell should load as, and all of it. */
  lemma SavedWalk(c: SaveCell, part: ValuePart, ids: seq<byte>, b: seq<byte>)
    requires SavedLayout(c, part, ids, b)
    ensures Walk(b, FlagsWord(b), CellLayout, |CellLayout|) == Ok((Loaded(c), |b|))
  {
    var fl := FlagsWord(b);
    var start := 12 + |part.bytes|;
    SavedValueWalk(c, part, ids, b);
    SavedIdsLaidOut(c, part, ids, b);
    IdWalkAll(b, fl, c.ids, CellLayout, WriteOrder, ValueFields(c.value), start);
    LoadedIds(c);
    assert Pos(|WriteOrder|) == |CellLayout|;
  }

  /** The ids of a saved buffer are laid out after its value as the layout reads them. */
  lemma SavedIdsLaidOut(c: SaveCell, part: ValuePart, ids: seq<byte>, b: seq<byte>)
    requires SavedLayout(c, part, ids, b)
    ensures IdsLaidOut(b, FlagsWord(b), c.ids, CellLayout, WriteOrder, 12 + |part.bytes|)
  {
    CellLayoutReadsIds();
  }

  /** Reading every id of the order ends at the end of the buffer. */
  lemma IdWalkAll(b: seq<byte>, fl: nat, ids: map<IdName, int>, layout: seq<Step>,
                  order: seq<(IdName, nat)>, f: Fields, start: nat)
    requires IdsLaidOut(b, fl, ids, layout, order, start)
    requires Walk(b, fl, layout, 4) == Ok((f, start))
    ensures Pos(|order|) <= |layout|
    ensures Walk(b, fl, layout, Pos(|order|)) == Ok((IdsRead(f, ids, order, |order|), |b|))
  {
    IdWalk(b, fl, ids, layout, order, f, start, |order|);
    assert |b[start..]| == |b| - start;
  }

  /** The value's fields with every id of the write order read on top are the loaded cell. */
  lemma LoadedIds(c: SaveCell)
    ensures IdsRead(ValueFields(c.value), c.ids, WriteOrder, |WriteOrder|) == Loaded(c)
  {
    IdMapCarried(c.ids);
  }

  /** A loaded date has its seconds and a loaded bool or duration its double. */
  lemma LoadedValue(c: SaveCell)
    ensures KindSaved(c.value) == Some(DateKind) ==> Loaded(c).seconds.Some?
    ensures KindSaved(c.value) in {Some(BoolKind), Some(DurationKind)} ==> Loaded(c).double.Some?
  {
  }

  /** Loading a buffer laid out as a cell was saved. */
  lemma DecodeSaved(c: SaveCell, part: ValuePart, ids: seq<byte>, b: seq<byte>)
    requires SavedLayout(c, part, ids, b)
    ensures Decode(b).Ok?
    ensures KindSaved(c.value) == Some(Decode(b).value.kind)
    ensures Decode(b).value.fields == Loaded(c)
    ensures Decode(b).value.extras == Extras(c.ids)
    ensures Walk(b, FlagsWord(b), CellLayout, |CellLayout|) == Ok((Loaded(c), |b|))
  {
    SavedHeader(c, part, ids, b);
    SavedWalk(c, part, ids, b);
    LoadedValue(c);
    DecodeOk(b, KindSaved(c.value).value, Loaded(c), |b|);
  }

  /** Saving a cell and loading the buffer back gives the cell's class, value, ids and
      extras, and the reader consumes exactly the bytes written. */
  lemma RoundTrip(c: SaveCell, b: seq<byte>)
    requires Buffer(c) == Ok(Some(b))
    ensures Decode(b).Ok?
    ensures KindSaved(c.value) == Some(Decode(b).value.kind)
    ensures Decode(b).value.fields == Loaded(c)
    ensures Decode(b).value.extras == Extras(c.ids)
    ensures |b| >= 12 && Walk(b, FlagsWord(b), CellLayout, |CellLayout|) == Ok((Loaded(c), |b|))
  {
    SavedParts(c, b);
    DecodeSaved(c, ValuePartOf(c, false).value.value, IdsWritten(c.ids, WriteOrder, |WriteOrder|).value, b);
  }

  // ---- the rich-text buffer as `Cell._to_buffer` writes it ----

  /** A rich-text cell with a cell style, as `Cell._to_buffer` saves it, loads back with its rich
      id in place of its cell style: the rich id is written both as the value and under
      flag 0x10, and the reader takes the second copy for the style (flag 0x20). */
  lemma RichTextStyleMisread(c: SaveCell)
    requires c == SaveCell(SaveRichText, map[RichId := 7, CellStyleId := 3])
    ensures BufferAsWritten(c).Ok? && BufferAsWritten(c).value.Some?
    ensures var b := BufferAsWritten(c).value.value;
      Decode(b).Ok? && CellStyleId in Decode(b).value.fields.ids
      && Decode(b).value.fields.ids[CellStyleId] == 7 != c.ids[CellStyleId]
  {
    MisreadShape(c.ids);
    var b := MisreadWritten(c);
    MisreadLayout(b);
    MisreadRead(b);
  }

  /** A cell carrying rich id `rich` and cell style `style` and no other id. */
  predicate RichAndStyle(ids: map<IdName, int>, rich: int, style: int)
  {
    RichId in ids && ids[RichId] == rich && CellStyleId in ids && ids[CellStyleId] == style
    && StringId !in ids && forall i | 2 <= i < |WriteOrder| :: WriteOrder[i].0 !in ids
  }

  lemma MisreadShape(ids: map<IdName, int>)
    requires ids == map[RichId := 7, CellStyleId := 3]
    ensures RichAndStyle(ids, 7, 3)
  {
    LaterIds();
  }

  lemma MisreadWritten(c: SaveCell) returns (b: seq<byte>)
    requires c.value == SaveRichText && RichAndStyle(c.ids, 7, 3)
    ensures BufferAsWritten(c) == Ok(Some(b))
    ensures b == [5, 9, 0, 0, 0, 0, 0, 0, 0x30, 0, 0, 0, 7, 0, 0, 0, 7, 0, 0, 0, 3, 0, 0, 0]
  {
    var part := MisreadParts(c);
    WriteOrderIncreasing();
    MisreadBits(c.ids);
    var bits := SetBits(ValueBits(None), c.ids, WriteOrder, |WriteOrder|);
    EncodedOf(c, true, part, [7, 0, 0, 0, 3, 0, 0, 0], bits);
    b := Header(9, 0, bits) + part.bytes + [7, 0, 0, 0, 3, 0, 0, 0];
    MisreadBytes(FlagBytes(bits), part.bytes, [7, 0, 0, 0, 3, 0, 0, 0]);
  }

  /** The value part, id bytes and extras of the rich-text cell as written. */
  lemma MisreadParts(c: SaveCell) returns (part: ValuePart)
    requires c.value == SaveRichText && RichAndStyle(c.ids, 7, 3)
    ensures part == ValuePart(None, 9, [7, 0, 0, 0]) && ValuePartOf(c, true) == Ok(Some(part))
    ensures IdsWritten(c.ids, WriteOrder, |WriteOrder|) == Ok([7, 0, 0, 0, 3, 0, 0, 0])
    ensures Extras(c.ids) == 0
  {
    SmallPack(7);
    part := ValuePart(None, 9, [7, 0, 0, 0]);
    MisreadIds(c.ids);
    NoFormats(c.ids);
  }

  /** A cell with only a rich id and a cell style has no extras. */
  lemma NoFormats(ids: map<IdName, int>)
    requires RichAndStyle(ids, 7, 3)
    ensures Extras(ids) == 0
  {
    assert WriteOrder[6].0 == NumFormatId && WriteOrder[7].0 == CurrencyFormatId;
    assert WriteOrder[8].0 == DateFormatId && WriteOrder[9].0 == DurationFormatId;
    assert WriteOrder[11].0 == BoolFormatId;
  }

  /** The 24 bytes the rich-text cell is written as, from its three parts. */
  lemma MisreadBytes(flags: seq<byte>, value: seq<byte>, idBytes: seq<byte>)
    requires flags == [0x30, 0, 0, 0] && value == [7, 0, 0, 0] && idBytes == [7, 0, 0, 0, 3, 0, 0, 0]
    ensures [5, 9, 0, 0, 0, 0, 0, 0] + flags + value + idBytes
      == [5, 9, 0, 0, 0, 0, 0, 0, 0x30, 0, 0, 0, 7, 0, 0, 0, 7, 0, 0, 0, 3, 0, 0, 0]
  {
  }

  /** `Encoded` once its value part, id bytes and flag bits are known. */
  lemma EncodedOf(c: SaveCell, richIdAsValue: bool, part: ValuePart, idBytes: seq<byte>, bits: seq<bool>)
    requires ValuePartOf(c, richIdAsValue) == Ok(Some(part))
    requires IdsWritten(c.ids, WriteOrder, |WriteOrder|) == Ok(idBytes)
    requires Fits(WriteOrder, FlagWidth)
    requires SetBits(ValueBits(part.bit), c.ids, WriteOrder, |WriteOrder|) == bits
    ensures Encoded(c, richIdAsValue) == Ok(Some(Header(part.cellType, Extras(c.ids), bits) + part.bytes + idBytes))
  {
  }

  /** `pack("<i", v)` of a small non-negative v. */
  lemma SmallPack(v: nat)
    requires v < 256
    ensures InRange(v, 4, true) && Pack(v, 4, true) == Ok([v as byte, 0, 0, 0])
    ensures Unpack([v as byte, 0, 0, 0], 4, true) == Ok(v)
  {
    assert Half(4) == 128 * Pow256(3) && Pow256(3) >= 1;
    assert InRange(v, 4, true) && Unsigned(v, 4) == v;
    SmallBytes(v);
    assert Pack(v, 4, true) == Ok(ToLittleEndian(v, 4));
    UnpackPack(v, 4, true);
  }

  /** Ids the cell does not carry add no bytes. */
  lemma {:induction false} IdsWrittenAbsent(ids: map<IdName, int>, order: seq<(IdName, nat)>, j: nat, k: nat)
    requires j <= k <= |order| && IdsWritten(ids, order, j).Ok?
    requires forall i | j <= i < k :: order[i].0 !in ids
    ensures IdsWritten(ids, order, k) == IdsWritten(ids, order, j)
    decreases k
  {
    if j < k {
      IdsWrittenAbsent(ids, order, j, k - 1);
      assert IdsWritten(ids, order, k - 1).value + [] == IdsWritten(ids, order, j).value;
    }
  }

  /** ... and set no bits. */
  lemma {:induction false} SetBitsAbsent(bits: seq<bool>, ids: map<IdName, int>, order: seq<(IdName, nat)>, j: nat, k: nat)
    requires j <= k <= |order| && Fits(order, |bits|)
    requires forall i | j <= i < k :: order[i].0 !in ids
    ensures SetBits(bits, ids, order, k) == SetBits(bits, ids, order, j)
    decreases k
  {
    if j < k {
      SetBitsAbsent(bits, ids, order, j, k - 1);
    }
  }

  /** Only the first two ids of the write order are the rich and cell-style ids. */
  lemma LaterIds()
    ensures forall i | 2 <= i < |WriteOrder| :: WriteOrder[i].0 !in {RichId, CellStyleId}
  {
  }

  lemma MisreadIds(ids: map<IdName, int>)
    requires RichAndStyle(ids, 7, 3)
    ensures IdsWritten(ids, WriteOrder, |WriteOrder|) == Ok([7, 0, 0, 0, 3, 0, 0, 0])
  {
    assert WriteOrder[0].0 == RichId && WriteOrder[1].0 == CellStyleId;
    TwoSmallIds(ids, WriteOrder, 7, 3);
  }

  /** An order whose first two ids are small and whose other ids are absent writes eight
      bytes. */
  lemma TwoSmallIds(ids: map<IdName, int>, order: seq<(IdName, nat)>, x: nat, y: nat)
    requires |order| >= 2 && x < 256 && y < 256
    requires order[0].0 in ids && ids[order[0].0] == x && order[1].0 in ids && ids[order[1].0] == y
    requires forall i | 2 <= i < |order| :: order[i].0 !in ids
    ensures IdsWritten(ids, order, |order|) == Ok([x as byte, 0, 0, 0, y as byte, 0, 0, 0])
  {
    SmallPack(x);
    SmallPack(y);
    var first: seq<byte> := [x as byte, 0, 0, 0];
    IdsWrittenStep(ids, order, 0, []);
    assert [] + first == first;
    IdsWrittenStep(ids, order, 1, first);
    assert first + [y as byte, 0, 0, 0] == [x as byte, 0, 0, 0, y as byte, 0, 0, 0];
    IdsWrittenAbsent(ids, order, 2, |order|);
  }

  /** Writing one more id of an order that the cell carries appends its packed bytes. */
  lemma IdsWrittenStep(ids: map<IdName, int>, order: seq<(IdName, nat)>, k: nat, prev: seq<byte>)
    requires k < |order| && IdsWritten(ids, order, k) == Ok(prev)
    requires order[k].0 in ids && InRange(ids[order[k].0], 4, true)
    ensures IdsWritten(ids, order, k + 1) == Ok(prev + Pack(ids[order[k].0], 4, true).value)
  {
  }

  lemma SetBitsNext(bits: seq<bool>, ids: map<IdName, int>, order: seq<(IdName, nat)>, k: nat, prev: seq<bool>)
    requires k < |order| && Fits(order, |bits|) && SetBits(bits, ids, order, k) == prev
    ensures |prev| == |bits|
    ensures SetBits(bits, ids, order, k + 1) == if order[k].0 in ids then prev[order[k].1 := true] else prev
  {
  }

  lemma MisreadBits(ids: map<IdName, int>)
    requires RichAndStyle(ids, 7, 3)
    ensures FlagBytes(SetBits(ValueBits(None), ids, WriteOrder, |WriteOrder|)) == [0x30, 0, 0, 0]
  {
    var start := ValueBits(None);
    WriteOrderIncreasing();
    var bits := start[4 := true][5 := true];
    SetBitsNext(start, ids, WriteOrder, 0, start);
    SetBitsNext(start, ids, WriteOrder, 1, start[4 := true]);
    SetBitsAbsent(start, ids, WriteOrder, 2, |WriteOrder|);
    MisreadWord(bits);
  }

  lemma MisreadWord(bits: seq<bool>)
    requires bits == ValueBits(None)[4 := true][5 := true]
    ensures FlagBytes(bits) == [0x30, 0, 0, 0]
  {
    var low := [false, false, false, false, true, true];
    MisreadFlagBits(bits, low);
    WordAppendZeros(low, 13);
    LowWord(low);
    SmallBytes(0x30);
  }

  lemma MisreadFlagBits(bits: seq<bool>, low: seq<bool>)
    requires bits == ValueBits(None)[4 := true][5 := true]
    requires low == [false, false, false, false, true, true]
    ensures bits == low + seq(13, q => false)
  {
    assert |bits| == |low + seq(13, q => false)|;
    forall k | 0 <= k < |bits|
      ensures bits[k] == (low + seq(13, q => false))[k]
    {
    }
  }

  lemma LowWord(low: seq<bool>)
    requires low == [false, false, false, false, true, true]
    ensures Word(low) == 0x30
  {
    WordCons(true, []);
    WordCons(true, [true]);
    WordCons(false, [true, true]);
    WordCons(false, [false, true, true]);
    WordCons(false, [false, false, true, true]);
    WordCons(false, [false, false, false, true, true]);
    assert [false] + [false, false, false, true, true] == low;
  }

  lemma WordCons(x: bool, rest: seq<bool>)
    ensures Word([x] + rest) == (if x then 1 else 0) + 2 * Word(rest)
  {
    assert ([x] + rest)[1..] == rest;
  }

  /** The four little-endian bytes of a value below 256. */
  lemma SmallBytes(v: nat)
    requires v < 256
    ensures ToLittleEndian(v, 4) == [v as byte, 0, 0, 0]
  {
    assert v % 256 == v && v / 256 == 0;
    assert ToLittleEndian(0, 3) == [0, 0, 0];
    assert ToLittleEndian(v, 4) == [v as byte] + ToLittleEndian(0, 3);
    assert [v as byte] + [0, 0, 0] == [v as byte, 0, 0, 0];
  }

  lemma {:induction false} WordZeros(n: nat)
    ensures Word(seq(n, q => false)) == 0
  {
    if n > 0 {
      assert seq(n, q => false)[1..] == seq(n - 1, q => false);
      WordZeros(n - 1);
    }
  }

  lemma {:induction false} WordAppendZeros(bits: seq<bool>, n: nat)
    ensures Word(bits + seq(n, q => false)) == Word(bits)
  {
    if bits == [] {
      assert bits + seq(n, q => false) == seq(n, q => false);
      WordZeros(n);
    } else {
      assert (bits + seq(n, q => false))[1..] == bits[1..] + seq(n, q => false);
      WordAppendZeros(bits[1..], n);
    }
  }

  /** Of the bits 0 to 5 of 0x30, bits 4 and 5 are set. */
  lemma LowBits()
    ensures !TestBit(0x30, 0) && !TestBit(0x30, 1) && !TestBit(0x30, 2) && !TestBit(0x30, 3)
    ensures TestBit(0x30, 4) && TestBit(0x30, 5)
  {
  }

  /** Bits 6 and up of 0x30 are clear. */
  lemma HighBitsClear(q: nat)
    requires q >= 6
    ensures !TestBit(0x30, q)
  {
    assert TestBit(0x30, q) == TestBit(0x18, q - 1) == TestBit(0xC, q - 2) == TestBit(6, q - 3);
    assert TestBit(6, q - 3) == TestBit(3, q - 4) == TestBit(1, q - 5) == TestBit(0, q - 6);
    TestBitZero(q - 6);
  }

  /** Reading the buffer: the rich id at offset 12, then the cell style at offset 16, and
      nothing else. */
  lemma MisreadRead(b: seq<byte>)
    requires |b| == 24 && b[0] == 5 && b[1] == 9 && FlagsWord(b) == 0x30
    requires b[12..16] == [7, 0, 0, 0] && b[16..20] == [7, 0, 0, 0]
    ensures Decode(b).Ok? && CellStyleId in Decode(b).value.fields.ids
    ensures Decode(b).value.fields.ids[CellStyleId] == 7
  {
    var f := MisreadFirst(b, FlagsWord(b));
    MisreadRest(b, FlagsWord(b), f);
    DecodeOk(b, RichTextKind, f, 20);
  }

  /** The header and id slots of the 24 bytes written for the rich-text cell. */
  lemma MisreadLayout(b: seq<byte>)
    requires b == [5, 9, 0, 0, 0, 0, 0, 0, 0x30, 0, 0, 0, 7, 0, 0, 0, 7, 0, 0, 0, 3, 0, 0, 0]
    ensures |b| == 24 && b[0] == 5 && b[1] == 9 && FlagsWord(b) == 0x30
    ensures b[12..16] == [7, 0, 0, 0] && b[16..20] == [7, 0, 0, 0]
  {
    MisreadFlags(b);
    assert b[12..16] == [7, 0, 0, 0];
    assert b[16..20] == [7, 0, 0, 0];
  }

  lemma MisreadFlags(b: seq<byte>)
    requires |b| >= 12 && b[8] == 0x30 && b[9] == 0 && b[10] == 0 && b[11] == 0
    ensures FlagsWord(b) == 0x30
  {
    assert b[8..12] == [0x30, 0, 0, 0];
    SmallBytes(0x30);
    LittleEndianOfBytes(0x30, 4);
  }

  lemma MisreadFirst(b: seq<byte>, fl: nat) returns (f: Fields)
    requires fl == 0x30 && |b| >= 20 && b[12..16] == [7, 0, 0, 0] && b[16..20] == [7, 0, 0, 0]
    ensures f == Fields(None, None, None, map[RichId := 7, CellStyleId := 7])
    ensures Walk(b, fl, CellLayout, 6) == Ok((f, 20))
  {
    LowBits();
    WalkNoValue(b, fl);
    SmallPack(7);
    var g := NoFields.(ids := map[RichId := 7]);
    ReadId(b, 12, RichId, 7, NoFields);
    WalkNext(b, fl, CellLayout, 4);
    assert Walk(b, fl, CellLayout, 5) == Ok((g, 16));
    ReadId(b, 16, CellStyleId, 7, g);
    WalkNext(b, fl, CellLayout, 5);
    f := Fields(None, None, None, map[RichId := 7, CellStyleId := 7]);
    assert g.(ids := g.ids[CellStyleId := 7]) == f;
  }

  lemma MisreadRest(b: seq<byte>, fl: nat, f: Fields)
    requires fl == 0x30 && Walk(b, fl, CellLayout, 6) == Ok((f, 20))
    ensures Walk(b, fl, CellLayout, |CellLayout|) == Ok((f, 20))
  {
    LateStepsHigh();
    forall k | 6 <= k < |CellLayout|
      ensures StepClear(fl, CellLayout[k])
    {
      var step := CellLayout[k];
      if step.Field? {
        HighBitsClear(step.bit);
      } else {
        forall q | 0 <= q < |step.bits|
          ensures !TestBit(fl, step.bits[q])
        {
          HighBitsClear(step.bits[q]);
        }
      }
    }
    WalkClear(b, fl, CellLayout, 6, |CellLayout|);
  }

  /** A step that reads and skips nothing under these flags. */
  predicate StepClear(fl: nat, step: Step)
  {
    match step
    case Field(bit, _, _) => !TestBit(fl, bit)
    case SkipSetBits(bits) => forall q | 0 <= q < |bits| :: !TestBit(fl, bits[q])
  }

  /** The steps after the cell style use bits 6 and up only. */
  lemma LateStepsHigh()
    ensures forall k | 6 <= k < |CellLayout| ::
      (CellLayout[k].Field? ==> CellLayout[k].bit >= 6)
      && (CellLayout[k].SkipSetBits? ==> forall q | 0 <= q < |CellLayout[k].bits| :: CellLayout[k].bits[q] >= 6)
  {
  }

  lemma {:induction false} WalkClear(b: seq<byte>, fl: nat, layout: seq<Step>, n: nat, m: nat)
    requires n <= m <= |layout| && Walk(b, fl, layout, n).Ok?
    requires forall k | n <= k < m :: StepClear(fl, layout[k])
    ensures Walk(b, fl, layout, m) == Walk(b, fl, layout, n)
    decreases m
  {
    if n < m {
      WalkClear(b, fl, layout, n, m - 1);
      SkipStep(b, fl, layout, m - 1);
    }
  }
}
