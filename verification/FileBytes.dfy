/** The bytes a positioned write and a truncation leave behind, and the simple file they refine. */
module FileBytes {
  import opened Tree

  // bytes.ljust(width, b"\0")
  function Pad(b: seq<byte>, width: nat): (r: seq<byte>)
    ensures |r| == if |b| < width then width else |b|
    ensures forall i | 0 <= i < |r| :: r[i] == if i < |b| then b[i] else 0
  {
    b + seq(if |b| < width then width - |b| else 0, _ => 0)
  }

  // Python slices clamp to the length.
  function Head(b: seq<byte>, n: nat): seq<byte> {
    if n <= |b| then b[..n] else b
  }

  function Tail(b: seq<byte>, n: nat): seq<byte> {
    if n <= |b| then b[n..] else []
  }

  function Written(b: seq<byte>, offset: nat, data: seq<byte>): seq<byte> {
    Pad(Head(b, offset), offset) + data + Tail(b, offset + |data|)
  }

  function Truncated(b: seq<byte>, length: nat): seq<byte> {
    Pad(Head(b, length), length)
  }

  function Slice(b: seq<byte>, offset: nat, size: nat): seq<byte> {
    Head(Tail(b, offset), size)
  }

  /** A file as POSIX describes it: a length, and a byte at every offset below it, zero elsewhere. */
  ghost predicate IsFile(b: seq<byte>, len: nat, at: nat -> byte) {
    && |b| == len
    && (forall i: nat | i < len :: b[i] == at(i))
    && (forall i: nat | len <= i :: at(i) == 0)
  }

  datatype Edit = Write(offset: nat, data: seq<byte>) | Append(data: seq<byte>) | Truncate(length: nat)

  function EndOf(e: Edit, len: nat): nat {
    match e
    case Write(offset, data) => offset + |data|
    case Append(data) => len + |data|
    case Truncate(length) => length
  }

  function OneEdit(b: seq<byte>, e: Edit): seq<byte> {
    match e
    case Write(offset, data) => Written(b, offset, data)
    case Append(data) => Written(b, |b|, data)
    case Truncate(length) => Truncated(b, length)
  }

  // An edit that would end past the limit is refused and changes nothing.
  function Edited(b: seq<byte>, e: Edit): seq<byte> {
    if EndOf(e, |b|) > MAX_FILE then b else OneEdit(b, e)
  }

  function EditAll(b: seq<byte>, es: seq<Edit>): seq<byte> {
    if es == [] then b else Edited(EditAll(b, es[..|es| - 1]), es[|es| - 1])
  }

  // The same edits on the simple file.
  function SimpleLength(len: nat, e: Edit): nat {
    if EndOf(e, len) > MAX_FILE then len
    else if e.Truncate? then e.length
    else if EndOf(e, len) < len then len else EndOf(e, len)
  }

  function SimpleBytes(len: nat, at: nat -> byte, e: Edit): nat -> byte {
    if EndOf(e, len) > MAX_FILE then at
    else if e.Truncate? then ((i: nat) => if i < e.length then at(i) else 0)
    else
      var offset := if e.Write? then e.offset else len;
      ((i: nat) => if offset <= i < offset + |e.data| then e.data[i - offset] else at(i))
  }

  datatype Simple = Simple(len: nat, at: nat -> byte)

  function SimpleAll(f: Simple, es: seq<Edit>): Simple {
    if es == [] then f
    else
      var g, e := SimpleAll(f, es[..|es| - 1]), es[|es| - 1];
      Simple(SimpleLength(g.len, e), SimpleBytes(g.len, g.at, e))
  }

  lemma WrittenAt(b: seq<byte>, offset: nat, data: seq<byte>)
    ensures |Written(b, offset, data)| == if offset + |data| < |b| then |b| else offset + |data|
    ensures forall i | 0 <= i < |Written(b, offset, data)| ::
      Written(b, offset, data)[i] ==
        if offset <= i < offset + |data| then data[i - offset] else if i < |b| then b[i] else 0
  {}

  lemma WriteRefines(b: seq<byte>, len: nat, at: nat -> byte, offset: nat, data: seq<byte>)
    requires IsFile(b, len, at)
    ensures IsFile(Written(b, offset, data), if offset + |data| < len then len else offset + |data|,
                   (i: nat) => if offset <= i < offset + |data| then data[i - offset] else at(i))
  {
    WrittenAt(b, offset, data);
  }

  lemma TruncateRefines(b: seq<byte>, len: nat, at: nat -> byte, length: nat)
    requires IsFile(b, len, at)
    ensures IsFile(Truncated(b, length), length, (i: nat) => if i < length then at(i) else 0)
  {}

  lemma OneEditRefines(b: seq<byte>, len: nat, at: nat -> byte, e: Edit)
    requires IsFile(b, len, at)
    ensures IsFile(Edited(b, e), SimpleLength(len, e), SimpleBytes(len, at, e))
    ensures len <= MAX_FILE ==> SimpleLength(len, e) <= MAX_FILE
  {
    match e
    case Truncate(length) => TruncateRefines(b, len, at, length);
    case Write(offset, data) => WriteRefines(b, len, at, offset, data);
    case Append(data) => WriteRefines(b, len, at, len, data);
  }

  /** Any sequence of writes, appends and truncations leaves exactly the simple file's bytes, and a
      file within the limit stays within it. */
  lemma {:induction false} EditsRefineSimpleFile(b: seq<byte>, f: Simple, es: seq<Edit>)
    requires IsFile(b, f.len, f.at)
    ensures IsFile(EditAll(b, es), SimpleAll(f, es).len, SimpleAll(f, es).at)
    ensures f.len <= MAX_FILE ==> |EditAll(b, es)| <= MAX_FILE
  {
    if es != [] {
      var init := es[..|es| - 1];
      EditsRefineSimpleFile(b, f, init);
      var g := SimpleAll(f, init);
      OneEditRefines(EditAll(b, init), g.len, g.at, es[|es| - 1]);
    }
  }

  function Min(a: nat, b: nat): nat { if a < b then a else b }

  /** A read returns what stands at its offset: as many bytes as it asks for, or as many as are left. */
  lemma SliceAt(b: seq<byte>, offset: nat, size: nat)
    ensures |Slice(b, offset, size)| == Min(size, if offset < |b| then |b| - offset else 0)
    ensures forall i | 0 <= i < |Slice(b, offset, size)| :: Slice(b, offset, size)[i] == b[offset + i]
  {}

  /** Reading back the written range returns the data, wherever the write landed. */
  lemma ReadBack(b: seq<byte>, offset: nat, data: seq<byte>)
    ensures Slice(Written(b, offset, data), offset, |data|) == data
  {
    WrittenAt(b, offset, data);
  }
}
