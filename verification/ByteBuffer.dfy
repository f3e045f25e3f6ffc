/** The buffer that numbers and strings are written to and read from: it compacts or
    grows when it is full, and can go back to a position that it was read from. */
module ByteBuffering {
  import opened ByteOrder
  import opened Arrays
  import opened Sizes

  /** All the bytes since the last compaction, how many of them have been read, the room
      there is, and how often the bytes have been moved. */
  datatype Buffer = Buffer(whole: Bytes, start: nat, capacity: nat, version: nat) {
    ghost predicate Valid() {
      start <= |whole| <= capacity
    }

    function Unread(): Bytes
      requires start <= |whole|
    {
      whole[start..]
    }
  }

  datatype ReadPosition = ReadPosition(start: nat, version: nat)

  function Grown(capacity: nat, size: nat): nat {
    if size <= capacity then capacity
    else if size < 3 * capacity / 2 then 3 * capacity / 2
    else size
  }

  function Resized(b: Buffer, size: nat): (b': Buffer)
    requires b.Valid()
    ensures b'.Valid() && b'.Unread() <= b.Unread()
  {
    Buffer(b.Unread()[..Min(|b.Unread()|, size)], 0, Grown(b.capacity, size), b.version + 1)
  }

  function Written(b: Buffer, data: Bytes): (b': Buffer)
    requires b.Valid()
    ensures b'.Valid() && b'.Unread() == b.Unread() + data
  {
    var needed := |b.Unread()| + |data|;
    var room := if needed > b.capacity - b.start then Resized(b, needed) else b;
    room.(whole := room.whole + data)
  }

  function Consumed(b: Buffer, n: nat): (b': Buffer)
    requires b.Valid()
    ensures b'.Valid()
  {
    if n > |b.Unread()| then b else b.(start := b.start + n)
  }

  /** `SetReadPosition`. A position beyond the end cannot be had from `GetReadPosition`. */
  function Rewound(b: Buffer, position: ReadPosition): (b': Buffer)
    requires b.Valid()
    ensures b'.Valid()
  {
    if position.version == b.version && position.start <= |b.whole| then b.(start := position.start) else b
  }

  function Cleared(b: Buffer): Buffer {
    Buffer([], 0, b.capacity, b.version + 1)
  }

  datatype Op =
    | Write(data: Bytes)
    | Read(n: nat)
    | Resize(size: nat)
    | Rewind(position: ReadPosition)
    | Clear

  function Step(b: Buffer, op: Op): (b': Buffer)
    requires b.Valid()
    ensures b'.Valid() && b'.version >= b.version
  {
    match op
    case Write(data) => Written(b, data)
    case Read(n) => Consumed(b, n)
    case Resize(size) => Resized(b, size)
    case Rewind(position) => Rewound(b, position)
    case Clear => Cleared(b)
  }

  function Run(b: Buffer, ops: seq<Op>): (b': Buffer)
    requires b.Valid()
    ensures b'.Valid() && b'.version >= b.version
    decreases |ops|
  {
    if ops == [] then b else Run(Step(b, ops[0]), ops[1..])
  }

  /** What one operation reads, and what it writes. */
  function ReadBy(b: Buffer, op: Op): Bytes
    requires b.Valid()
  {
    if op.Read? && op.n <= |b.Unread()| then b.Unread()[..op.n] else []
  }

  function WrittenBy(op: Op): Bytes {
    if op.Write? then op.data else []
  }

  /** Everything that the operations write. */
  function AllWritten(ops: seq<Op>): Bytes {
    if ops == [] then [] else WrittenBy(ops[0]) + AllWritten(ops[1..])
  }

  /** Everything that they read. */
  function AllRead(b: Buffer, ops: seq<Op>): Bytes
    requires b.Valid()
    decreases |ops|
  {
    if ops == [] then [] else ReadBy(b, ops[0]) + AllRead(Step(b, ops[0]), ops[1..])
  }

  lemma StepConserves(b: Buffer, op: Op)
    requires b.Valid() && (op.Write? || op.Read?)
    ensures ReadBy(b, op) + Step(b, op).Unread() == b.Unread() + WrittenBy(op)
  {
    if op.Write? {
      assert [] + Step(b, op).Unread() == b.Unread() + op.data;
    } else {
      assert b.Unread() + [] == b.Unread();
      if op.n <= |b.Unread()| {
        assert Step(b, op).Unread() == b.Unread()[op.n..];
      }
    }
  }

  lemma Conserved(r: Bytes, more: Bytes, left: Bytes, unread: Bytes, mid: Bytes, w: Bytes, written: Bytes)
    requires r + mid == unread + w && more + left == mid + written
    ensures (r + more) + left == unread + (w + written)
  {
    assert (r + more) + left == r + (more + left) == (r + mid) + written == unread + (w + written);
  }

  /** First in, first out, whatever was compacted and grown on the way: what has been read
      and what is left is what there was and what has been written. */
  lemma {:induction false} FirstInFirstOut(b: Buffer, ops: seq<Op>)
    requires b.Valid()
    requires forall i :: 0 <= i < |ops| ==> ops[i].Write? || ops[i].Read?
    ensures AllRead(b, ops) + Run(b, ops).Unread() == b.Unread() + AllWritten(ops)
    decreases |ops|
  {
    hide Step, ReadBy, WrittenBy, Buffer.Unread;
    if ops == [] {
      assert [] + b.Unread() == b.Unread() + [];
    } else {
      var b' := Step(b, ops[0]);
      StepConserves(b, ops[0]);
      FirstInFirstOut(b', ops[1..]);
      Conserved(ReadBy(b, ops[0]), AllRead(b', ops[1..]), Run(b, ops).Unread(), b.Unread(), b'.Unread(),
                WrittenBy(ops[0]), AllWritten(ops[1..]));
    }
  }

  lemma StepGrows(b: Buffer, op: Op)
    requires b.Valid() && Step(b, op).version == b.version
    ensures Step(b, op).whole == b.whole + WrittenBy(op)
  {
    assert b.whole + [] == b.whole;
  }

  /** While the version stays, the bytes only grow, by what is written. */
  lemma {:induction false} SameVersionGrows(b: Buffer, ops: seq<Op>)
    requires b.Valid() && Run(b, ops).version == b.version
    ensures Run(b, ops).whole == b.whole + AllWritten(ops)
    decreases |ops|
  {
    hide Step, WrittenBy;
    if ops == [] {
      assert b.whole + [] == b.whole;
    } else {
      StepGrows(b, ops[0]);
      SameVersionGrows(Step(b, ops[0]), ops[1..]);
      var first, rest := WrittenBy(ops[0]), AllWritten(ops[1..]);
      assert b.whole + first + rest == b.whole + (first + rest);
    }
  }

  /** A read position that is still accepted takes the buffer back to exactly what was
      unread when it was taken, followed by everything written since; in any run, even
      one that went back to other positions. */
  lemma RewindRestores(b: Buffer, ops: seq<Op>)
    requires b.Valid()
    ensures var b' := Run(b, ops);
      var position := ReadPosition(b.start, b.version);
      position.version == b'.version ==>
        && position.start <= |b'.whole|
        && Rewound(b', position).Unread() == b.Unread() + AllWritten(ops)
  {
    if Run(b, ops).version == b.version {
      SameVersionGrows(b, ops);
    }
  }

  lemma UnreadFront(a: array<Byte>, start: nat, end: nat, len: nat)
    requires start + len <= end <= a.Length
    ensures a[..end][start..][..len] == a[start..start + len]
  {
    SubSlice(a, 0, end, start, end);
    SubSlice(a, start, end, start, start + len);
  }

  class ByteBuffer {
    var bytes: array<Byte>
    var start: nat
    var end: nat
    var version: nat
    const order: Order

    ghost predicate Valid()
      reads this
    {
      start <= end <= bytes.Length
    }

    ghost function Abs(): (b: Buffer)
      requires Valid()
      reads this, bytes
      ensures b.Valid()
    {
      Buffer(bytes[..end], start, bytes.Length, version)
    }

    constructor (data: Bytes, order: Order)
      ensures Valid() && fresh(bytes) && this.order == order
      ensures Abs() == Buffer(data, 0, |data|, 0)
    {
      version, start, end := 0, 0, |data|;
      this.order := order;
      bytes := new Byte[|data|](i requires 0 <= i < |data| => data[i]);
      new;
      assert bytes[..|data|] == data;
    }

    static method CopyOf(a: array<Byte>, from: nat, len: nat, size: nat) returns (b: array<Byte>)
      requires from + len <= a.Length && len <= size
      ensures fresh(b) && b.Length == size && b[..len] == a[from..from + len]
    {
      b := new Byte[size](_ => 0);
      var i := 0;
      while i < len
        invariant 0 <= i <= len
        invariant forall k :: 0 <= k < i ==> b[k] == a[from + k]
      {
        b[i] := a[from + i];
        i := i + 1;
      }
    }

    method Resize(size: nat)
      requires Valid()
      modifies this, bytes
      ensures Valid() && (bytes == old(bytes) || fresh(bytes))
      ensures Abs() == Resized(old(Abs()), size)
      ensures end - start == (if old(end - start) < size then old(end - start) else size) && version == old(version) + 1
      ensures Abs().Unread() == old(Abs()).Unread()[..end - start]
      ensures size <= bytes.Length && (size <= old(bytes.Length) ==> bytes == old(bytes))
    {
      var len := Min(end - start, size);
      UnreadFront(bytes, start, end, len);
      if size <= bytes.Length {
        MoveToFront(bytes, start, start + len);
      } else {
        bytes := CopyOf(bytes, start, len, Grown(bytes.Length, size));
      }
      start := 0;
      end := len;
      version := version + 1;
    }

    method WriteBytes(data: Bytes)
      requires Valid()
      modifies this, bytes
      ensures Valid() && (bytes == old(bytes) || fresh(bytes))
      ensures Abs() == Written(old(Abs()), data)
      ensures Abs().Unread() == old(Abs()).Unread() + data
      // read positions outlive it exactly when there was room behind the end
      ensures version == old(version) + if old(end) + |data| > old(bytes.Length) then 1 else 0
      ensures old(end) + |data| <= old(bytes.Length) ==> bytes == old(bytes) && start == old(start)
    {
      if end - start + |data| > bytes.Length - start {
        Resize(end - start + |data|);
      }
      Store(bytes, end, data);
      end := end + |data|;
    }

    static method Store(a: array<Byte>, at: nat, data: Bytes)
      requires at + |data| <= a.Length
      modifies a
      ensures a[..at + |data|] == old(a[..at]) + data
    {
      for i := 0 to |data|
        invariant a[..at] == old(a[..at]) && forall k :: 0 <= k < i ==> a[at + k] == data[k]
      {
        a[at + i] := data[i];
      }
    }

    method ReadBytes(len: nat) returns (ok: bool, data: Bytes)
      requires Valid()
      modifies this`start
      ensures Valid() && Abs() == Consumed(old(Abs()), len)
      ensures ok == (len <= |old(Abs()).Unread()|)
      ensures data == if ok then old(Abs()).Unread()[..len] else []
      ensures Abs().Unread() == if ok then old(Abs()).Unread()[len..] else old(Abs()).Unread()
    {
      if len > end - start {
        return false, [];
      }
      data := bytes[start..start + len];
      start := start + len;
      return true, data;
    }

    method GetReadPosition() returns (position: ReadPosition)
      requires Valid()
      ensures position == ReadPosition(start, version)
    {
      return ReadPosition(start, version);
    }

    method SetReadPosition(position: ReadPosition) returns (ok: bool)
      requires Valid()
      requires position.version == version ==> position.start <= end
      modifies this`start
      ensures Valid() && Abs() == Rewound(old(Abs()), position)
      ensures ok == (position.version == version)
      ensures start == if ok then position.start else old(start)
    {
      if position.version != version {
        return false;
      }
      start := position.start;
      return true;
    }

    method Clear()
      requires Valid()
      modifies this, bytes
      ensures Valid() && bytes == old(bytes) && Abs() == Cleared(old(Abs()))
      ensures start == end == 0 && Abs().Unread() == [] && version == old(version) + 1
    {
      for i := 0 to bytes.Length
        modifies bytes
      {
        bytes[i] := 0;
      }
      start, end := 0, 0;
      version := version + 1;
    }

    /** `WriteUInt8` to `WriteUInt64`, by their width. */
    method WriteUInt(v: nat, width: nat)
      requires Valid()
      modifies this, bytes
      ensures Valid() && (bytes == old(bytes) || fresh(bytes))
      ensures Abs() == Written(old(Abs()), Put(order, v, width))
    {
      WriteBytes(Put(order, v, width));
    }

    /** `ReadUInt8` to `ReadUInt64`. */
    method ReadUInt(width: nat) returns (ok: bool, v: nat)
      requires Valid()
      modifies this`start
      ensures Valid() && Abs() == Consumed(old(Abs()), width)
      ensures ok == (width <= |old(Abs()).Unread()|)
      ensures ok ==> old(Abs()).Unread()[..width] == Put(order, v, width) && v < Power256(width)
    {
      var data;
      ok, data := ReadBytes(width);
      v := 0;
      if ok {
        v := Get(order, data);
        PutGet(order, data);
        GetBounded(order, data);
      }
    }
  }

  datatype Number = Number(value: nat, width: nat)

  /** Numbers one after the other, in front of `rest`. */
  function PutAll(order: Order, numbers: seq<Number>, rest: Bytes): Bytes {
    if numbers == [] then rest
    else Put(order, numbers[0].value, numbers[0].width) + PutAll(order, numbers[1..], rest)
  }

  /** Numbers of the given widths, read one after the other; and what is left. */
  function GetAll(order: Order, b: Bytes, widths: seq<nat>): (seq<nat>, Bytes) {
    if widths == [] || widths[0] > |b| then ([], b)
    else
      var (more, rest) := GetAll(order, b[widths[0]..], widths[1..]);
      ([Get(order, b[..widths[0]])] + more, rest)
  }

  function Widths(numbers: seq<Number>): seq<nat> {
    if numbers == [] then [] else [numbers[0].width] + Widths(numbers[1..])
  }

  function Values(numbers: seq<Number>): seq<nat> {
    if numbers == [] then [] else [numbers[0].value % Power256(numbers[0].width)] + Values(numbers[1..])
  }

  lemma NumberTaken(order: Order, first: Bytes, rest: Bytes, width: nat, widths: seq<nat>)
    requires |first| == width
    ensures var (more, left) := GetAll(order, rest, widths);
      GetAll(order, first + rest, [width] + widths) == ([Get(order, first)] + more, left)
  {
    var b, ws := first + rest, [width] + widths;
    assert b[..width] == first && b[width..] == rest && ws[1..] == widths;
  }

  /** Numbers written one after the other are read back in the same widths, each as far
      as it fits, in either byte order; what follows them is untouched. */
  lemma {:induction false} NumbersReadBack(order: Order, numbers: seq<Number>, rest: Bytes)
    ensures GetAll(order, PutAll(order, numbers, rest), Widths(numbers)) == (Values(numbers), rest)
  {
    hide Put, Get, Power256;
    if numbers != [] {
      hide GetAll;
      var n := numbers[0];
      NumbersReadBack(order, numbers[1..], rest);
      GetPut(order, n.value, n.width);
      var first := Put(order, n.value, n.width);
      NumberTaken(order, first, PutAll(order, numbers[1..], rest), n.width, Widths(numbers[1..]));
    }
  }
}
