/** The RAM file system: 32 slots found by scanning, as a map from names to contents. */
module RamFs {
  import opened Bits

  const MAX_FILES: int := 32
  const MAX_NAME: int := 32
  const MAX_SIZE: int := 4096

  // ----- Files as a map -----

  type Files = map<string, seq<Byte>>

  function Clamped(data: seq<Byte>): seq<Byte> {
    if |data| > MAX_SIZE then data[..MAX_SIZE] else data
  }

  /** A state after an operation, and the number the operation returns; or the state in which it uses a null
      pointer. */
  datatype Outcome<S> = Outcome(state: S, code: int) | Fault(state: S)

  /** What a slot keeps of a name. */
  function Short(name: string): string {
    if |name| < MAX_NAME then name else name[..MAX_NAME - 1]
  }

  function CreateIn(m: Files, name: string): Outcome<Files> {
    if name in m || |m| >= MAX_FILES then Outcome(m, -1) else Outcome(m[Short(name) := []], 0)
  }

  /** Writing replaces the contents, and makes the file when there is none and room for one. */
  function WriteIn(m: Files, name: string, data: seq<Byte>): Outcome<Files> {
    if name !in m && |m| >= MAX_FILES then Outcome(m, -1)
    else Outcome(m[name := Clamped(data)], |Clamped(data)|)
  }

  function AppendIn(m: Files, name: string, data: seq<Byte>): Outcome<Files> {
    if name !in m then Outcome(m, -1)
    else
      var all := Clamped(m[name] + data);
      Outcome(m[name := all], |all| - |m[name]|)
  }

  function DeleteIn(m: Files, name: string): Outcome<Files> {
    if name in m then Outcome(m - {name}, 0) else Outcome(m, -1)
  }

  // ----- Slots -----

  datatype Slot = Slot(used: bool, name: string, bytes: seq<Byte>)

  predicate Matches(s: Slot, name: string) {
    s.used && s.name == name
  }

  ghost predicate WellFormed(slots: seq<Slot>) {
    && |slots| == MAX_FILES
    && forall i :: 0 <= i < |slots| && slots[i].used ==> |slots[i].name| < MAX_NAME && |slots[i].bytes| <= MAX_SIZE
  }

  ghost predicate Unique(slots: seq<Slot>) {
    forall i, j :: 0 <= i < j < |slots| && slots[i].used && slots[j].used ==> slots[i].name != slots[j].name
  }

  /** The slots hold the files of the map and no others. */
  ghost predicate Stands(slots: seq<Slot>, m: Files) {
    && (forall n :: n in m ==> Stored(slots, n))
    && (forall i :: 0 <= i < |slots| && slots[i].used ==> Listed(m, slots[i]))
  }

  ghost predicate Stored(slots: seq<Slot>, name: string) {
    exists i :: 0 <= i < |slots| && Matches(slots[i], name)
  }

  ghost predicate Listed(m: Files, s: Slot) {
    s.name in m && m[s.name] == s.bytes
  }

  /** Slots that stand for a map determine it. */
  lemma OneMap(slots: seq<Slot>, m: Files, other: Files)
    requires Stands(slots, m) && Stands(slots, other)
    ensures m == other
  {
    forall n | n in m || n in other
      ensures n in m && n in other && m[n] == other[n]
    {
      assert Stored(slots, n);
      var i :| 0 <= i < |slots| && Matches(slots[i], n);
      assert Listed(m, slots[i]) && Listed(other, slots[i]);
    }
  }

  /** The first slot from i on that holds the name, or the number of slots. */
  function FindFrom(slots: seq<Slot>, name: string, i: nat): (k: nat)
    requires i <= |slots|
    ensures i <= k <= |slots| && (k < |slots| ==> Matches(slots[k], name))
    ensures forall j :: i <= j < k ==> !Matches(slots[j], name)
    decreases |slots| - i
  {
    if i == |slots| || Matches(slots[i], name) then i else FindFrom(slots, name, i + 1)
  }

  function FreeFrom(slots: seq<Slot>, i: nat): (k: nat)
    requires i <= |slots|
    ensures i <= k <= |slots| && (k < |slots| ==> !slots[k].used)
    ensures forall j :: i <= j < k ==> slots[j].used
    decreases |slots| - i
  {
    if i == |slots| || !slots[i].used then i else FreeFrom(slots, i + 1)
  }

  function Find(slots: seq<Slot>, name: string): (k: nat) {
    FindFrom(slots, name, 0)
  }

  function Free(slots: seq<Slot>): (k: nat) {
    FreeFrom(slots, 0)
  }

  function Created(slots: seq<Slot>, name: string): Outcome<seq<Slot>> {
    if Find(slots, name) < |slots| || Free(slots) == |slots| then Outcome(slots, -1)
    else Outcome(slots[Free(slots) := Slot(true, Short(name), [])], 0)
  }

  /** A file just created that is not found again is written through a null pointer. */
  function Written(slots: seq<Slot>, name: string, data: seq<Byte>): Outcome<seq<Slot>> {
    var made := if Find(slots, name) < |slots| then Outcome(slots, 0) else Created(slots, name);
    var i := Find(made.state, name);
    if made.code < 0 then Outcome(slots, -1)
    else if i == |made.state| then Fault(made.state)
    else Outcome(made.state[i := Slot(true, name, Clamped(data))], |Clamped(data)|)
  }

  function Appended(slots: seq<Slot>, name: string, data: seq<Byte>): Outcome<seq<Slot>> {
    var i := Find(slots, name);
    if i == |slots| then Outcome(slots, -1)
    else
      var all := Clamped(slots[i].bytes + data);
      Outcome(slots[i := Slot(true, name, all)], |all| - |slots[i].bytes|)
  }

  function Deleted(slots: seq<Slot>, name: string): Outcome<seq<Slot>> {
    var i := Find(slots, name);
    if i == |slots| then Outcome(slots, -1) else Outcome(slots[i := Slot(false, "", [])], 0)
  }

  // ----- Slots behave as the map -----

  function CountUsed(slots: seq<Slot>): nat {
    if slots == [] then 0 else CountUsed(slots[..|slots| - 1]) + if slots[|slots| - 1].used then 1 else 0
  }

  lemma {:induction false} CountAll(slots: seq<Slot>)
    ensures CountUsed(slots) <= |slots|
    ensures CountUsed(slots) == |slots| <==> forall i :: 0 <= i < |slots| ==> slots[i].used
  {
    if slots != [] {
      var n := |slots| - 1;
      CountAll(slots[..n]);
      assert forall i :: 0 <= i < n ==> slots[..n][i] == slots[i];
    }
  }

  lemma {:induction false} CountFiles(slots: seq<Slot>, m: Files)
    requires Unique(slots) && Stands(slots, m)
    ensures CountUsed(slots) == |m|
  {
    if slots != [] {
      var n := |slots| - 1;
      StandsWithout(slots, m);
      if slots[n].used {
        assert Listed(m, slots[n]);
        CountFiles(slots[..n], m - {slots[n].name});
        assert m.Keys == (m - {slots[n].name}).Keys + {slots[n].name};
      } else {
        CountFiles(slots[..n], m);
      }
    } else {
      OneMap(slots, m, map[]);
    }
  }

  /** One file for each used slot, and no free slot when there are as many files as slots. */
  lemma CountIsSize(slots: seq<Slot>, m: Files)
    requires Unique(slots) && Stands(slots, m)
    ensures CountUsed(slots) == |m| <= |slots|
    ensures |m| == |slots| <==> Free(slots) == |slots|
  {
    CountFiles(slots, m);
    CountAll(slots);
  }

  lemma StandsWithout(slots: seq<Slot>, m: Files)
    requires slots != [] && Unique(slots) && Stands(slots, m)
    ensures var n := |slots| - 1;
      Stands(slots[..n], if slots[n].used then m - {slots[n].name} else m)
  {
    var n := |slots| - 1;
    var m' := if slots[n].used then m - {slots[n].name} else m;
    forall name | name in m'
      ensures Stored(slots[..n], name)
    {
      assert Stored(slots, name);
      var i :| 0 <= i < |slots| && Matches(slots[i], name);
      assert i < n && slots[..n][i] == slots[i];
    }
    forall i | 0 <= i < n && slots[..n][i].used
      ensures Listed(m', slots[..n][i])
    {
      assert Listed(m, slots[i]);
    }
  }

  /** A name is found exactly when the map has it. */
  lemma FoundIffPresent(slots: seq<Slot>, m: Files, name: string)
    requires Stands(slots, m)
    ensures Find(slots, name) < |slots| <==> name in m
    ensures Find(slots, name) < |slots| ==> slots[Find(slots, name)].bytes == m[name]
  {
    if Find(slots, name) < |slots| {
      assert Listed(m, slots[Find(slots, name)]);
    }
  }

  /** Filling one slot changes one name. */
  lemma SlotFilled(slots: seq<Slot>, m: Files, i: nat, name: string, bytes: seq<Byte>)
    requires Unique(slots) && Stands(slots, m) && i < |slots|
    requires Matches(slots[i], name) || (!slots[i].used && name !in m)
    ensures var after := slots[i := Slot(true, name, bytes)];
      Unique(after) && Stands(after, m[name := bytes])
  {
    var after, m' := slots[i := Slot(true, name, bytes)], m[name := bytes];
    forall n | n in m'
      ensures Stored(after, n)
    {
      if n == name {
        assert Matches(after[i], n);
      } else {
        assert Stored(slots, n);
        var j :| 0 <= j < |slots| && Matches(slots[j], n);
        assert Matches(after[j], n);
      }
    }
    forall j | 0 <= j < |slots| && j != i && slots[j].used
      ensures Listed(m', slots[j]) && slots[j].name != name
    {
      assert Listed(m, slots[j]);
      assert slots[i].used ==> (if i < j then slots[i].name != slots[j].name else slots[j].name != slots[i].name);
    }
    assert Listed(m', after[i]);
  }

  lemma SlotEmptied(slots: seq<Slot>, m: Files, i: nat, name: string)
    requires Unique(slots) && Stands(slots, m) && i < |slots| && Matches(slots[i], name)
    ensures var after := slots[i := Slot(false, "", [])];
      Unique(after) && Stands(after, m - {name})
  {
    var after, m' := slots[i := Slot(false, "", [])], m - {name};
    forall n | n in m'
      ensures Stored(after, n)
    {
      assert Stored(slots, n);
      var j :| 0 <= j < |slots| && Matches(slots[j], n);
      assert Matches(after[j], n);
    }
    forall j | 0 <= j < |slots| && j != i && slots[j].used
      ensures Listed(m', slots[j])
    {
      assert Listed(m, slots[j]);
      assert if i < j then slots[i].name != slots[j].name else slots[j].name != slots[i].name;
    }
  }

  /** The slots are well formed, with one slot for a name, and stand for the map. */
  ghost predicate Refines(slots: seq<Slot>, m: Files) {
    WellFormed(slots) && Unique(slots) && Stands(slots, m)
  }

  /** The name fits, its beginning is not taken, or there is no slot for it. */
  predicate CanCreate(m: Files, name: string) {
    |name| < MAX_NAME || Short(name) !in m || |m| == MAX_FILES
  }

  lemma CreateRefines(slots: seq<Slot>, m: Files, name: string)
    requires Refines(slots, m) && CanCreate(m, name)
    ensures Refines(Created(slots, name).state, CreateIn(m, name).state)
    ensures Created(slots, name).code == CreateIn(m, name).code
  {
    FoundIffPresent(slots, m, name);
    CountIsSize(slots, m);
    if Created(slots, name).code == 0 {
      SlotFilled(slots, m, Free(slots), Short(name), []);
    }
  }

  lemma FillFound(slots: seq<Slot>, m: Files, name: string, bytes: seq<Byte>)
    requires Refines(slots, m) && |name| < MAX_NAME && name in m && |bytes| <= MAX_SIZE
    ensures Find(slots, name) < |slots| && slots[Find(slots, name)].bytes == m[name]
    ensures Refines(slots[Find(slots, name) := Slot(true, name, bytes)], m[name := bytes])
  {
    FoundIffPresent(slots, m, name);
    SlotFilled(slots, m, Find(slots, name), name, bytes);
  }

  lemma WriteNew(slots: seq<Slot>, m: Files, name: string, data: seq<Byte>)
    requires Refines(slots, m) && |name| < MAX_NAME && name !in m
    ensures Written(slots, name, data).Outcome?
    ensures Refines(Written(slots, name, data).state, WriteIn(m, name, data).state)
    ensures Written(slots, name, data).code == WriteIn(m, name, data).code
  {
    FoundIffPresent(slots, m, name);
    CreateRefines(slots, m, name);
    var made, m' := Created(slots, name).state, CreateIn(m, name).state;
    FoundIffPresent(made, m', name);
    if name in m' {
      FillFound(made, m', name, Clamped(data));
      assert m'[name := Clamped(data)] == m[name := Clamped(data)];
    }
  }

  lemma WriteRefines(slots: seq<Slot>, m: Files, name: string, data: seq<Byte>)
    requires Refines(slots, m) && (|name| < MAX_NAME || |m| == MAX_FILES)
    ensures Written(slots, name, data).Outcome?
    ensures Refines(Written(slots, name, data).state, WriteIn(m, name, data).state)
    ensures Written(slots, name, data).code == WriteIn(m, name, data).code
  {
    FoundIffPresent(slots, m, name);
    if name in m {
      assert Stored(slots, name);
      FillFound(slots, m, name, Clamped(data));
    } else if |name| < MAX_NAME {
      WriteNew(slots, m, name, data);
    } else {
      CountIsSize(slots, m);
    }
  }

  /** Writing uses a null pointer if and only if the name is too long to be found again and there is room
      to create the file. */
  lemma WriteFaults(slots: seq<Slot>, m: Files, name: string, data: seq<Byte>)
    requires Refines(slots, m)
    ensures Written(slots, name, data).Fault? <==> |name| >= MAX_NAME && |m| < MAX_FILES
    ensures Written(slots, name, data).Fault? ==> Written(slots, name, data).state == Created(slots, name).state
  {
    CountIsSize(slots, m);
    if |name| < MAX_NAME || |m| == MAX_FILES {
      WriteRefines(slots, m, name, data);
    } else {
      NotFound(slots, name);
      NotFound(Created(slots, name).state, name);
    }
  }

  lemma NotFound(slots: seq<Slot>, name: string)
    requires WellFormed(slots) && |name| >= MAX_NAME
    ensures Find(slots, name) == |slots| && WellFormed(Created(slots, name).state)
  {}

  lemma AppendRefines(slots: seq<Slot>, m: Files, name: string, data: seq<Byte>)
    requires Refines(slots, m)
    ensures Refines(Appended(slots, name, data).state, AppendIn(m, name, data).state)
    ensures Appended(slots, name, data).code == AppendIn(m, name, data).code
  {
    FoundIffPresent(slots, m, name);
    if name in m {
      assert Stored(slots, name);
      FillFound(slots, m, name, Clamped(m[name] + data));
    }
  }

  lemma DeleteRefines(slots: seq<Slot>, m: Files, name: string)
    requires Refines(slots, m)
    ensures Refines(Deleted(slots, name).state, DeleteIn(m, name).state)
    ensures Deleted(slots, name).code == DeleteIn(m, name).code
  {
    FoundIffPresent(slots, m, name);
    if Find(slots, name) < |slots| {
      SlotEmptied(slots, m, Find(slots, name), name);
    }
  }

  /** A long name is cut when it is stored and not when it is sought, so it is never found.  Creating a
      file leaves one slot for a name exactly when the name fits, its beginning is not taken, or nothing
      is created. */
  lemma LongNames(slots: seq<Slot>, m: Files, name: string)
    requires Refines(slots, m)
    ensures |name| >= MAX_NAME ==> name !in m
    ensures Unique(Created(slots, name).state) <==> CanCreate(m, name)
  {
    CountIsSize(slots, m);
    FoundIffPresent(slots, m, name);
    var after := Created(slots, name);
    if CanCreate(m, name) {
      CreateRefines(slots, m, name);
    } else {
      assert Stored(slots, Short(name));
      var j :| 0 <= j < |slots| && Matches(slots[j], Short(name));
      assert after.state[j] == slots[j] && after.state[Free(slots)].name == Short(name);
      assert !Unique(after.state);
    }
  }

  // ----- What a user of the map sees -----

  datatype Op =
    | Create(name: string)
    | Write(name: string, data: seq<Byte>)
    | Append(name: string, data: seq<Byte>)
    | Delete(name: string)

  function Do(m: Files, op: Op): Outcome<Files> {
    match op
    case Create(name) => CreateIn(m, name)
    case Write(name, data) => WriteIn(m, name, data)
    case Append(name, data) => AppendIn(m, name, data)
    case Delete(name) => DeleteIn(m, name)
  }

  function DoSlots(slots: seq<Slot>, op: Op): Outcome<seq<Slot>> {
    match op
    case Create(name) => Created(slots, name)
    case Write(name, data) => Written(slots, name, data)
    case Append(name, data) => Appended(slots, name, data)
    case Delete(name) => Deleted(slots, name)
  }

  function RunMap(m: Files, ops: seq<Op>): Files {
    if ops == [] then m else Do(RunMap(m, ops[..|ops| - 1]), ops[|ops| - 1]).state
  }

  function RunSlots(slots: seq<Slot>, ops: seq<Op>): seq<Slot> {
    if ops == [] then slots else DoSlots(RunSlots(slots, ops[..|ops| - 1]), ops[|ops| - 1]).state
  }

  function EmptySlots(): seq<Slot> {
    seq(MAX_FILES, _ => Slot(false, "", []))
  }

  /** The operation treats its name as one name. */
  predicate Harmless(m: Files, op: Op) {
    match op
    case Create(name) => CanCreate(m, name)
    case Write(name, _) => |name| < MAX_NAME || |m| == MAX_FILES
    case _ => true
  }

  /** Creating gives the map's code in any case, and stands for the map exactly when it can. */
  lemma CreateEither(slots: seq<Slot>, m: Files, name: string)
    requires Refines(slots, m)
    ensures Created(slots, name).Outcome? && Created(slots, name).code == CreateIn(m, name).code
    ensures Unique(Created(slots, name).state) <==> CanCreate(m, name)
    ensures Refines(Created(slots, name).state, CreateIn(m, name).state) <==> CanCreate(m, name)
  {
    LongNames(slots, m, name);
    FoundIffPresent(slots, m, name);
    CountIsSize(slots, m);
    if CanCreate(m, name) {
      CreateRefines(slots, m, name);
    }
  }

  lemma WriteEither(slots: seq<Slot>, m: Files, name: string, data: seq<Byte>)
    requires Refines(slots, m)
    ensures Written(slots, name, data).Fault? <==> |name| >= MAX_NAME && |m| < MAX_FILES
    ensures Written(slots, name, data).Fault? ==> Written(slots, name, data).state == Created(slots, name).state
    ensures Written(slots, name, data).Outcome? ==>
      && Refines(Written(slots, name, data).state, WriteIn(m, name, data).state)
      && Written(slots, name, data).code == WriteIn(m, name, data).code
  {
    WriteFaults(slots, m, name, data);
    CountIsSize(slots, m);
    if Written(slots, name, data).Outcome? {
      WriteRefines(slots, m, name, data);
    }
  }

  /** An operation ends without a fault and leaves one slot for a name if and only if it is harmless, and
      then it is the operation on the map. */
  lemma OpRefines(slots: seq<Slot>, m: Files, op: Op)
    requires Refines(slots, m)
    ensures DoSlots(slots, op).Outcome? && Unique(DoSlots(slots, op).state) <==> Harmless(m, op)
    ensures Harmless(m, op) ==>
      Refines(DoSlots(slots, op).state, Do(m, op).state) && DoSlots(slots, op).code == Do(m, op).code
  {
    CountIsSize(slots, m);
    match op
    case Create(name) => CreateEither(slots, m, name);
    case Write(name, data) => WriteEither(slots, m, name, data);
    case Append(name, data) => AppendRefines(slots, m, name, data);
    case Delete(name) => DeleteRefines(slots, m, name);
  }

  /** Over any run of harmless operations from an empty file system the slots are the map of at most 32
      files. */
  lemma {:induction false} RunRefines(ops: seq<Op>)
    requires forall i :: 0 <= i < |ops| ==> Harmless(RunMap(map[], ops[..i]), ops[i])
    ensures var slots := RunSlots(EmptySlots(), ops);
      Refines(slots, RunMap(map[], ops)) && |RunMap(map[], ops)| <= MAX_FILES
  {
    if ops == [] {
      assert Refines(EmptySlots(), map[]);
    } else {
      var n := |ops| - 1;
      forall i | 0 <= i < n
        ensures Harmless(RunMap(map[], ops[..n][..i]), ops[..n][i])
      {
        assert ops[..n][..i] == ops[..i];
      }
      RunRefines(ops[..n]);
      OpRefines(RunSlots(EmptySlots(), ops[..n]), RunMap(map[], ops[..n]), ops[n]);
      CountIsSize(RunSlots(EmptySlots(), ops), RunMap(map[], ops));
    }
  }

  /** The name an operation acts on. */
  function Touched(op: Op): string {
    if op.Create? then Short(op.name) else op.name
  }

  /** Creating makes an empty file and writing stores the first 4096 bytes, while there are fewer than 32 files
      or the file is one of them; deleting leaves the others; a name keeps 31 characters. */
  lemma FilesInNumbers(m: Files, name: string, data: seq<Byte>)
    ensures Short(name) == if |name| <= 31 then name else name[..31]
    ensures CreateIn(m, name) == if name !in m && |m| < 32 then Outcome(m[Short(name) := []], 0) else Outcome(m, -1)
    ensures WriteIn(m, name, data) ==
      if name !in m && |m| >= 32 then Outcome(m, -1)
      else if |data| <= 4096 then Outcome(m[name := data], |data|)
      else Outcome(m[name := data[..4096]], 4096)
    ensures DeleteIn(m, name).code == if name in m then 0 else -1
    ensures forall n :: n in DeleteIn(m, name).state <==> n in m && n != name
    ensures forall n :: n in DeleteIn(m, name).state ==> DeleteIn(m, name).state[n] == m[n]
  {}

  /** Appending adds what still fits below 4096 bytes and returns how much that is. */
  lemma AppendInNumbers(m: Files, name: string, data: seq<Byte>)
    ensures name !in m ==> AppendIn(m, name, data) == Outcome(m, -1)
    ensures name in m && |m[name]| <= 4096 ==>
      var fits := if |data| <= 4096 - |m[name]| then |data| else 4096 - |m[name]|;
      AppendIn(m, name, data) == Outcome(m[name := m[name] + data[..fits]], fits)
  {
    if name in m && |m[name]| <= 4096 {
      if |data| > 4096 - |m[name]| {
        var fits := 4096 - |m[name]|;
        assert (m[name] + data)[..4096] == m[name] + data[..fits];
      }
      assert data[..|data|] == data;
    }
  }

  /** No operation touches another file; what is written is read back with what was appended to it, cut at
      4096 bytes; and deleting a created file takes the creation back. */
  lemma FileLaws(m: Files, op: Op, data: seq<Byte>, more: seq<Byte>)
    ensures forall n :: n != Touched(op) ==>
      (n in Do(m, op).state <==> n in m) && (n in m ==> Do(m, op).state[n] == m[n])
    ensures var w := WriteIn(m, op.name, data);
      w.code >= 0 ==> AppendIn(w.state, op.name, more).state[op.name] == Clamped(data + more)
    ensures CreateIn(m, op.name).code == 0 && CanCreate(m, op.name) ==>
      DeleteIn(CreateIn(m, op.name).state, Short(op.name)) == Outcome(m, 0)
  {
    var w := WriteIn(m, op.name, data);
    if |data| > MAX_SIZE {
      assert Clamped(Clamped(data) + more) == Clamped(data + more);
    }
    if CreateIn(m, op.name).code == 0 && CanCreate(m, op.name) {
      assert m[Short(op.name) := []] - {Short(op.name)} == m;
    }
  }

  // ----- The file table -----

  class FileSystem {
    const used: array<bool>
    const names: array<string>
    const sizes: array<nat>
    const data: array2<Byte>
    ghost var files: Files          // what the table stands for

    ghost predicate Shaped()
      reads used, names, sizes, data
    {
      && used.Length == names.Length == sizes.Length == data.Length0 == MAX_FILES && data.Length1 == MAX_SIZE
      && forall i :: 0 <= i < MAX_FILES ==> sizes[i] <= MAX_SIZE
    }

    ghost function Bytes(i: nat): (bs: seq<Byte>)
      requires Shaped() && i < MAX_FILES
      reads used, names, sizes, data
      ensures |bs| == sizes[i] && forall k :: 0 <= k < sizes[i] ==> bs[k] == data[i, k]
    {
      seq(sizes[i], k requires Shaped() && 0 <= k < sizes[i] reads used, names, sizes, data => data[i, k])
    }

    ghost function Slots(): (slots: seq<Slot>)
      requires Shaped()
      reads used, names, sizes, data
      ensures |slots| == MAX_FILES
      ensures forall i :: 0 <= i < MAX_FILES ==>
        slots[i] == if used[i] then Slot(true, names[i], Bytes(i)) else Slot(false, "", [])
    {
      seq(MAX_FILES, i requires Shaped() && 0 <= i < MAX_FILES reads used, names, sizes, data =>
        if used[i] then Slot(true, names[i], Bytes(i)) else Slot(false, "", []))
    }

    ghost predicate Valid()
      reads this`files, used, names, sizes, data
    {
      Shaped() && Refines(Slots(), files)
    }

    constructor ()
      ensures Valid() && files == map[]
    {
      used := new bool[MAX_FILES](_ => false);
      names := new string[MAX_FILES](_ => "");
      sizes := new nat[MAX_FILES](_ => 0);
      data := new Byte[MAX_FILES, MAX_SIZE]((_, _) => 0);
      files := map[];
      new;
      assert Slots() == EmptySlots();
    }

    /** Compares two strings, neither holding a NUL. */
    static method StrEqual(a: string, b: string) returns (equal: bool)
      ensures equal <==> a == b
    {
      var i := 0;
      while i < |a| && i < |b|
        invariant 0 <= i <= |a| && i <= |b| && a[..i] == b[..i]
      {
        if a[i] != b[i] {
          return false;
        }
        i := i + 1;
      }
      assert a[..|a|] == a && b[..|b|] == b;
      equal := i == |a| && i == |b|;
    }

    method FindFile(name: string) returns (i: nat)
      requires Shaped()
      ensures i == Find(Slots(), name)
    {
      i := 0;
      while i < MAX_FILES
        invariant 0 <= i <= MAX_FILES && Find(Slots(), name) == FindFrom(Slots(), name, i)
      {
        if used[i] {
          var equal := StrEqual(names[i], name);
          if equal {
            return;
          }
        }
        i := i + 1;
      }
    }

    method FindFreeSlot() returns (i: nat)
      requires Shaped()
      ensures i == Free(Slots())
    {
      i := 0;
      while i < MAX_FILES
        invariant 0 <= i <= MAX_FILES && Free(Slots()) == FreeFrom(Slots(), i)
      {
        if !used[i] {
          return;
        }
        i := i + 1;
      }
    }

    /** Copies bytes into a slot's storage and nowhere else. */
    method MemCopy(i: nat, offset: nat, src: seq<Byte>)
      requires Shaped() && i < MAX_FILES && offset + |src| <= MAX_SIZE
      modifies data
      ensures forall j, k :: 0 <= j < MAX_FILES && 0 <= k < MAX_SIZE ==>
        data[j, k] == if j == i && offset <= k < offset + |src| then src[k - offset] else old(data[j, k])
    {
      var n := 0;
      while n < |src|
        invariant 0 <= n <= |src|
        invariant forall j, k :: 0 <= j < MAX_FILES && 0 <= k < MAX_SIZE ==>
          data[j, k] == if j == i && offset <= k < offset + n then src[k - offset] else old(data[j, k])
      {
        data[i, offset + n] := src[n];
        n := n + 1;
      }
    }

    method MemClear(i: nat)
      requires Shaped() && i < MAX_FILES
      modifies data
      ensures forall j, k :: 0 <= j < MAX_FILES && 0 <= k < MAX_SIZE ==>
        data[j, k] == if j == i then 0 else old(data[j, k])
    {
      var n := 0;
      while n < MAX_SIZE
        invariant 0 <= n <= MAX_SIZE
        invariant forall j, k :: 0 <= j < MAX_FILES && 0 <= k < MAX_SIZE ==>
          data[j, k] == if j == i && k < n then 0 else old(data[j, k])
      {
        data[i, n] := 0;
        n := n + 1;
      }
    }

    method StrCopy(src: string) returns (dest: string)
      ensures dest == Short(src)
    {
      dest := [];
      var i := 0;
      while i < |src| && i < MAX_NAME - 1
        invariant 0 <= i <= |src| && i < MAX_NAME && dest == src[..i]
      {
        dest := dest + [src[i]];
        i := i + 1;
      }
    }

    /** The arrays hold these slots. */
    ghost predicate Shows(slots: seq<Slot>)
      requires Shaped()
      reads used, names, sizes, data
    {
      && |slots| == MAX_FILES
      && forall i :: 0 <= i < MAX_FILES ==> ShowsAt(i, slots[i])
    }

    ghost predicate ShowsAt(i: nat, s: Slot)
      requires Shaped() && i < MAX_FILES
      reads used, names, sizes, data
    {
      if used[i] then
        && s.used && s.name == names[i] && |s.bytes| == sizes[i]
        && forall k :: 0 <= k < sizes[i] ==> s.bytes[k] == data[i, k]
      else s == Slot(false, "", [])
    }

    lemma ShowsSlots(slots: seq<Slot>)
      requires Shaped()
      ensures Shows(slots) <==> slots == Slots()
    {
      if Shows(slots) {
        forall i | 0 <= i < MAX_FILES
          ensures slots[i] == Slots()[i]
        {
          assert ShowsAt(i, slots[i]);
        }
      }
    }

    method InitSlot(i: nat, name: string)
      requires Shaped() && i < MAX_FILES
      modifies used, names, sizes, data
      ensures Shaped() && Slots() == old(Slots())[i := Slot(true, Short(name), [])]
    {
      ghost var slots := Slots();
      ShowsSlots(slots);
      var copy := StrCopy(name);
      names[i] := copy;
      sizes[i] := 0;
      used[i] := true;
      MemClear(i);
      ghost var after := slots[i := Slot(true, Short(name), [])];
      forall j | 0 <= j < MAX_FILES
        ensures ShowsAt(j, after[j])
      {
        assert old(ShowsAt(j, slots[j]));
      }
      ShowsSlots(after);
    }

    /** Keeps the bytes before the offset and ends the file with new ones. */
    method Fill(i: nat, offset: nat, src: seq<Byte>)
      requires Shaped() && i < MAX_FILES && used[i] && offset <= sizes[i] && offset + |src| <= MAX_SIZE
      modifies sizes, data
      ensures Shaped()
      ensures Slots() == old(Slots())[i := Slot(true, names[i], old(Slots())[i].bytes[..offset] + src)]
    {
      ghost var slots := Slots();
      ShowsSlots(slots);
      MemCopy(i, offset, src);
      sizes[i] := offset + |src|;
      ghost var after := slots[i := Slot(true, names[i], slots[i].bytes[..offset] + src)];
      forall j | 0 <= j < MAX_FILES
        ensures ShowsAt(j, after[j])
      {
        assert old(ShowsAt(j, slots[j]));
      }
      ShowsSlots(after);
    }

    /** Every name, also one that does not fit: the slots change as Created says. */
    method CreateSlot(name: string) returns (code: int)
      requires Shaped()
      modifies used, names, sizes, data
      ensures Shaped() && Outcome(Slots(), code) == Created(old(Slots()), name)
    {
      var i := FindFile(name);
      if i < MAX_FILES {
        return -1;
      }
      i := FindFreeSlot();
      if i == MAX_FILES {
        return -1;
      }
      InitSlot(i, name);
      code := 0;
    }

    /** The table goes on standing for a map exactly when the name could be created. */
    method Create(name: string) returns (code: int)
      requires Valid()
      modifies this`files, used, names, sizes, data
      ensures Shaped() && Outcome(files, code) == CreateIn(old(files), name)
      ensures Valid() <==> CanCreate(old(files), name)
    {
      ghost var goal := CreateIn(files, name).state;
      CreateEither(Slots(), files, name);
      code := CreateSlot(name);
      files := goal;
    }

    /** The slot to write to, made if need be; a negative code if that fails. */
    method FindOrCreate(name: string) returns (i: nat, code: int)
      requires Shaped()
      modifies used, names, sizes, data
      ensures Shaped() && i == Find(Slots(), name)
      ensures Outcome(Slots(), code) ==
        if Find(old(Slots()), name) < MAX_FILES then Outcome(old(Slots()), 0) else Created(old(Slots()), name)
    {
      code := 0;
      i := FindFile(name);
      if i == MAX_FILES {
        code := CreateSlot(name);
        i := FindFile(name);
      }
    }

    /** `fault` stands for the use of the null pointer, before which the method stops. */
    method WriteSlot(name: string, src: seq<Byte>) returns (code: int, fault: bool)
      requires Shaped()
      modifies used, names, sizes, data
      ensures Shaped()
      ensures (if fault then Fault(Slots()) else Outcome(Slots(), code)) == Written(old(Slots()), name, src)
    {
      fault := false;
      var i, made := FindOrCreate(name);
      if made < 0 {
        return -1, false;
      }
      var size := |src|;
      if size > MAX_SIZE {
        size := MAX_SIZE;
      }
      if i == MAX_FILES {
        return 0, true;
      }
      ghost var slots := Slots();
      assert slots[i].bytes[..0] + src[..size] == Clamped(src) && names[i] == slots[i].name;
      Fill(i, 0, src[..size]);
      code := size;
    }

    method Write(name: string, src: seq<Byte>) returns (code: int, fault: bool)
      requires Valid()
      modifies this`files, used, names, sizes, data
      ensures fault <==> |name| >= MAX_NAME && |old(files)| < MAX_FILES
      ensures Shaped() && (fault ==> Slots() == Created(old(Slots()), name).state)
      ensures !fault ==> Valid() && Outcome(files, code) == WriteIn(old(files), name, src)
    {
      ghost var slots := Slots();
      code, fault := WriteSlot(name, src);
      WriteEither(slots, files, name, src);
      if !fault {
        files := WriteIn(files, name, src).state;
      }
    }

    method AppendSlot(name: string, src: seq<Byte>) returns (code: int)
      requires Shaped()
      modifies sizes, data
      ensures Shaped() && Outcome(Slots(), code) == Appended(old(Slots()), name, src)
    {
      var i := FindFile(name);
      if i == MAX_FILES {
        return -1;
      }
      var size, available := |src|, MAX_SIZE - sizes[i];
      if size > available {
        size := available;
      }
      ghost var slots := Slots();
      ghost var slot := slots[i];
      ClampedEnd(slot.bytes, src, size);
      if size == 0 {
        assert slots[i := Slot(true, name, slot.bytes + src[..size])] == slots;
        return 0;
      }
      assert slot.bytes[..sizes[i]] == slot.bytes;
      Fill(i, sizes[i], src[..size]);
      code := size;
    }

    lemma ClampedEnd(bytes: seq<Byte>, src: seq<Byte>, size: nat)
      requires |bytes| <= MAX_SIZE && size == if |src| > MAX_SIZE - |bytes| then MAX_SIZE - |bytes| else |src|
      ensures Clamped(bytes + src) == bytes + src[..size]
      ensures size == 0 ==> bytes + src[..size] == bytes
    {}

    method Append(name: string, src: seq<Byte>) returns (code: int)
      requires Valid()
      modifies this`files, sizes, data
      ensures Valid() && Outcome(files, code) == AppendIn(old(files), name, src)
    {
      AppendRefines(Slots(), files, name, src);
      ghost var goal := AppendIn(files, name, src);
      code := AppendSlot(name, src);
      files := goal.state;
    }

    /** The first bytes of a file are put in the buffer, as many as there are and are asked for. */
    method Read(name: string, buffer: array<Byte>, maxSize: nat) returns (code: int)
      requires Valid() && maxSize <= buffer.Length
      modifies buffer
      ensures Valid()
      ensures name !in files ==> code == -1 && buffer[..] == old(buffer[..])
      ensures name in files ==> code == (if |files[name]| < maxSize then |files[name]| else maxSize)
      ensures name in files ==> buffer[..] == files[name][..code] + old(buffer[code..])
    {
      FoundIffPresent(Slots(), files, name);
      var i := FindFile(name);
      if i == MAX_FILES {
        return -1;
      }
      var toRead := sizes[i];
      if toRead > maxSize {
        toRead := maxSize;
      }
      CopyOut(i, buffer, toRead);
      code := toRead;
    }

    method CopyOut(i: nat, buffer: array<Byte>, count: nat)
      requires Shaped() && i < MAX_FILES && count <= sizes[i] && count <= buffer.Length
      modifies buffer
      ensures Shaped() && Slots() == old(Slots())
      ensures buffer[..] == Bytes(i)[..count] + old(buffer[count..])
    {
      assert (buffer as object) !in {used as object, names, sizes, data};
      CopyBytes(i, buffer, count, Bytes(i));
    }

    method CopyBytes(i: nat, buffer: array<Byte>, count: nat, ghost bytes: seq<Byte>)
      requires i < data.Length0 && count <= data.Length1 && count <= buffer.Length && count <= |bytes|
      requires forall k :: 0 <= k < count ==> data[i, k] == bytes[k]
      modifies buffer
      ensures buffer[..] == bytes[..count] + old(buffer[count..])
    {
      var n := 0;
      while n < count
        invariant 0 <= n <= count && buffer[..n] == bytes[..n]
        invariant forall k :: n <= k < buffer.Length ==> buffer[k] == old(buffer[k])
        invariant forall k :: 0 <= k < count ==> data[i, k] == bytes[k]
      {
        PutByte(buffer, n, data[i, n]);
        n := n + 1;
      }
      assert buffer[..] == buffer[..count] + buffer[count..];
    }

    /** `*d++ = *s++` */
    method PutByte(buffer: array<Byte>, n: nat, b: Byte)
      requires n < buffer.Length
      modifies buffer
      ensures buffer[..n + 1] == old(buffer[..n]) + [b]
      ensures forall k :: n + 1 <= k < buffer.Length ==> buffer[k] == old(buffer[k])
    {
      buffer[n] := b;
    }

    method Delete(name: string) returns (code: int)
      requires Valid()
      modifies this`files, used, names, sizes
      ensures Valid() && Outcome(files, code) == DeleteIn(old(files), name)
    {
      ghost var slots := Slots();
      ShowsSlots(slots);
      DeleteRefines(slots, files, name);
      ghost var goal := DeleteIn(files, name).state;
      var i := FindFile(name);
      if i == MAX_FILES {
        return -1;
      }
      used[i] := false;
      sizes[i] := 0;
      names[i] := "";
      files := goal;
      ghost var after := slots[i := Slot(false, "", [])];
      forall j | 0 <= j < MAX_FILES
        ensures ShowsAt(j, after[j])
      {
        assert old(ShowsAt(j, slots[j]));
      }
      ShowsSlots(after);
      code := 0;
    }

    method Exists(name: string) returns (there: bool)
      requires Valid()
      ensures there <==> name in files
    {
      FoundIffPresent(Slots(), files, name);
      var i := FindFile(name);
      there := i < MAX_FILES;
    }

    method Size(name: string) returns (size: int)
      requires Valid()
      ensures size == if name in files then |files[name]| else -1
    {
      FoundIffPresent(Slots(), files, name);
      var i := FindFile(name);
      size := if i < MAX_FILES then sizes[i] else -1;
    }

    method Count() returns (count: nat)
      requires Valid()
      ensures count == |files| <= MAX_FILES
    {
      ghost var slots := Slots();
      CountIsSize(slots, files);
      count := 0;
      var i := 0;
      while i < MAX_FILES
        invariant 0 <= i <= MAX_FILES && count == CountUsed(slots[..i])
      {
        if used[i] {
          count := count + 1;
        }
        i := i + 1;
        assert slots[..i][..i - 1] == slots[..i - 1];
      }
      assert slots[..MAX_FILES] == slots;
    }

    /** With the count of files: every slot is counted or free. */
    method FreeSpace() returns (space: nat)
      requires Valid()
      ensures space == (MAX_FILES - |files|) * MAX_SIZE
    {
      ghost var slots := Slots();
      CountIsSize(slots, files);
      var free, i := 0, 0;
      while i < MAX_FILES
        invariant 0 <= i <= MAX_FILES && free == i - CountUsed(slots[..i])
      {
        if !used[i] {
          free := free + 1;
        }
        i := i + 1;
        assert slots[..i][..i - 1] == slots[..i - 1];
      }
      assert slots[..MAX_FILES] == slots;
      space := free * MAX_SIZE;
    }
  }
}
