/** The in-place filter over a buffer of directory records in my_getdents64 (native/folder_manager.cpp, lines 2139-2152).

  A record holds its own length in two bytes (least significant first) and a NUL-terminated name; what hides a name
  is a fixed predicate here.
*/
module DirFilter {

  newtype byte = x: int | 0 <= x < 256

  const RECLEN_AT: nat := 16
  const NAME_AT: nat := 19

  type Name = seq<byte>

  const DOT: byte := 46

  predicate IsDotOrDotDot(name: Name) {
    name == [DOT] || name == [DOT, DOT]
  }

  /** The bytes before the first NUL. */
  function CName(bytes: seq<byte>): Name {
    if bytes == [] || bytes[0] == 0 then [] else [bytes[0]] + CName(bytes[1..])
  }

  function RecordLength(record: seq<byte>): nat
    requires |record| >= NAME_AT
  {
    record[RECLEN_AT] as nat + 256 * record[RECLEN_AT + 1] as nat
  }

  function RecordName(record: seq<byte>): Name
    requires |record| >= NAME_AT
  {
    CName(record[NAME_AT..])
  }

  /** A record as the kernel writes it: as long as it says, its name ended inside it. */
  predicate IsRecord(record: seq<byte>) {
    |record| > NAME_AT && RecordLength(record) == |record| && 0 in record[NAME_AT..]
  }

  /** A record byte by byte: inode, offset, length, type, and the name with its NUL and some padding. Such an entry stays
    exactly if it is "." or ".." or not hidden. */
  lemma EntryIs(record: seq<byte>, inode: seq<byte>, next: seq<byte>, low: byte, high: byte, kind: byte, name: Name,
                padding: seq<byte>, hidden: Name -> bool)
    requires |inode| == 8 && |next| == 8 && 0 !in name
    requires record == inode + next + [low, high, kind] + (name + [0] + padding)
    ensures RecordName(record) == name && RecordLength(record) == low as nat + 256 * high as nat
    ensures IsRecord(record) <==> low as nat + 256 * high as nat == |record|
    ensures IsRecord(record) ==> (Keeps(record, hidden) <==> name == [46] || name == [46, 46] || !hidden(name))
  {
    assert record[NAME_AT..] == name + [0] + padding;
    assert record[16] == low && record[17] == high;
    NameEnds(name, padding);
    assert (name + [0] + padding)[|name|] == 0;
  }

  lemma {:induction false} NameEnds(name: Name, padding: seq<byte>)
    requires 0 !in name
    ensures CName(name + [0] + padding) == name
  {
    var bytes := name + [0] + padding;
    if name != [] {
      assert bytes[0] == name[0] && name[0] in name;
      assert bytes[1..] == name[1..] + [0] + padding;
      NameEnds(name[1..], padding);
    }
  }

  predicate AllRecords(records: seq<seq<byte>>) {
    forall i :: 0 <= i < |records| ==> IsRecord(records[i])
  }

  function Flatten(records: seq<seq<byte>>): seq<byte> {
    if records == [] then [] else records[0] + Flatten(records[1..])
  }

  predicate Keeps(record: seq<byte>, hidden: Name -> bool)
    requires IsRecord(record)
  {
    IsDotOrDotDot(RecordName(record)) || !hidden(RecordName(record))
  }

  /** The records that stay, in order. */
  function Kept(records: seq<seq<byte>>, hidden: Name -> bool): seq<seq<byte>>
    requires AllRecords(records)
  {
    if records == [] then []
    else (if Keeps(records[0], hidden) then [records[0]] else []) + Kept(records[1..], hidden)
  }

  // ---------------------------------------------------------------------------
  // Reading the record at an offset

  lemma FlattenAppend(left: seq<seq<byte>>, right: seq<seq<byte>>)
    ensures Flatten(left + right) == Flatten(left) + Flatten(right)
  {
    if left == [] {
      assert left + right == right;
    } else {
      assert (left + right)[1..] == left[1..] + right;
      FlattenAppend(left[1..], right);
      assert left[0] + (Flatten(left[1..]) + Flatten(right)) == (left[0] + Flatten(left[1..])) + Flatten(right);
    }
  }

  /** A name read from the buffer stops inside its own record, whatever follows. */
  lemma {:induction false} NameStopsInside(bytes: seq<byte>, after: seq<byte>)
    requires 0 in bytes
    ensures CName(bytes + after) == CName(bytes)
  {
    if bytes[0] != 0 {
      assert (bytes + after)[1..] == bytes[1..] + after;
      NameStopsInside(bytes[1..], after);
    }
  }

  lemma RecordAt(buffer: seq<byte>, offset: nat, record: seq<byte>, rest: seq<byte>)
    requires offset <= |buffer| && IsRecord(record) && record + rest <= buffer[offset..]
    ensures offset + |record| <= |buffer|
    ensures RecordLength(buffer[offset..]) == |record|
    ensures RecordName(buffer[offset..]) == RecordName(record)
    ensures buffer[offset..offset + |record|] == record
  {
    var tail := buffer[offset..];
    assert (record + rest)[..|record|] == record;
    assert tail[..|record + rest|] == record + rest;
    assert forall i :: 0 <= i < |record| ==> tail[i] == (record + rest)[i] == record[i];
    assert tail[NAME_AT..] == record[NAME_AT..] + tail[|record|..];
    NameStopsInside(record[NAME_AT..], tail[|record|..]);
  }

  // ---------------------------------------------------------------------------
  // The loop

  method Memmove(buffer: array<byte>, to: nat, from: nat, count: nat)
    requires to <= from && from + count <= buffer.Length
    modifies buffer
    ensures buffer[to..to + count] == old(buffer[from..from + count])
    ensures buffer[..to] == old(buffer[..to])
  {
    forall i | 0 <= i < count {
      buffer[to + i] := buffer[from + i];
    }
  }

  /** How far the loop has come: the records kept so far, then the records still to be looked at. */
  ghost predicate Filtering(buffer: seq<byte>, offset: nat, done: seq<seq<byte>>, todo: seq<seq<byte>>) {
    && offset <= |buffer| && AllRecords(todo)
    && buffer[..offset] == Flatten(done)
    && buffer[offset..] == Flatten(todo)
  }

  lemma NextEntry(buffer: seq<byte>, offset: nat, done: seq<seq<byte>>, todo: seq<seq<byte>>)
    requires Filtering(buffer, offset, done, todo) && offset < |buffer|
    ensures todo != []
    ensures RecordLength(buffer[offset..]) == |todo[0]| && offset + |todo[0]| <= |buffer|
    ensures RecordName(buffer[offset..]) == RecordName(todo[0])
    ensures Filtering(buffer, offset + |todo[0]|, done + [todo[0]], todo[1..])
    ensures Filtering(buffer[..offset] + buffer[offset + |todo[0]|..], offset, done, todo[1..])
  {
    var record, rest := todo[0], todo[1..];
    RecordAt(buffer, offset, record, Flatten(rest));
    FlattenAppend(done, [record]);
    assert Flatten([record]) == record;
    var next := offset + |record|;
    assert buffer[..next] == buffer[..offset] + buffer[offset..next];
    assert buffer[next..] == buffer[offset..][|record|..] == Flatten(rest);
    var moved := buffer[..offset] + buffer[next..];
    assert moved[..offset] == buffer[..offset] && moved[offset..] == buffer[next..];
  }

  method FilterEntries(buffer: array<byte>, readBytes: nat, hidden: Name -> bool, ghost records: seq<seq<byte>>)
    returns (length: nat)
    requires readBytes <= buffer.Length && AllRecords(records)
    requires buffer[..readBytes] == Flatten(records)
    modifies buffer
    ensures length <= readBytes
    ensures buffer[..length] == Flatten(Kept(records, hidden))
  {
    length := readBytes;
    var offset := 0;
    ghost var done: seq<seq<byte>> := [];
    ghost var todo := records;
    while offset < length
      invariant 0 <= offset <= length <= readBytes
      invariant Filtering(buffer[..length], offset, done, todo)
      invariant done + Kept(todo, hidden) == Kept(records, hidden)
      decreases length - offset
    {
      NextEntry(buffer[..length], offset, done, todo);
      KeptNext(done, todo, hidden);
      var entry := buffer[..length][offset..];
      var entryLength := RecordLength(entry);
      var name := RecordName(entry);
      if !IsDotOrDotDot(name) && hidden(name) {
        length := RemoveEntry(buffer, offset, entryLength, length);
        todo := todo[1..];
        continue;
      }
      offset := offset + entryLength;
      done, todo := done + [todo[0]], todo[1..];
    }
    assert todo == [] && done + [] == done;
    assert buffer[..length] == buffer[..length][..offset];
  }

  lemma KeptNext(done: seq<seq<byte>>, todo: seq<seq<byte>>, hidden: Name -> bool)
    requires todo != [] && AllRecords(todo)
    ensures Keeps(todo[0], hidden) ==> done + Kept(todo, hidden) == (done + [todo[0]]) + Kept(todo[1..], hidden)
    ensures !Keeps(todo[0], hidden) ==> done + Kept(todo, hidden) == done + Kept(todo[1..], hidden)
  {
    var rest := Kept(todo[1..], hidden);
    if Keeps(todo[0], hidden) {
      assert done + ([todo[0]] + rest) == (done + [todo[0]]) + rest;
    } else {
      assert Kept(todo, hidden) == rest;
    }
  }

  method RemoveEntry(buffer: array<byte>, offset: nat, entryLength: nat, length: nat) returns (newLength: nat)
    requires offset + entryLength <= length <= buffer.Length
    modifies buffer
    ensures newLength == length - entryLength
    ensures buffer[..newLength] == old(buffer[..length][..offset] + buffer[..length][offset + entryLength..])
  {
    var remaining := length - (offset + entryLength);
    Memmove(buffer, offset, offset + entryLength, remaining);
    newLength := length - entryLength;
    assert buffer[..newLength] == buffer[..offset] + buffer[offset..offset + remaining];
  }

  // ---------------------------------------------------------------------------
  // What stays

  /** Exactly the dot entries and the entries that are not hidden stay, each as often as it was there. */
  lemma {:induction false} KeptIsExact(records: seq<seq<byte>>, hidden: Name -> bool, r: seq<byte>)
    requires AllRecords(records) && IsRecord(r)
    ensures multiset(Kept(records, hidden))[r] == if Keeps(r, hidden) then multiset(records)[r] else 0
  {
    if records != [] {
      KeptIsExact(records[1..], hidden, r);
      assert records == [records[0]] + records[1..];
      assert multiset(records) == multiset{records[0]} + multiset(records[1..]);
      if Keeps(records[0], hidden) {
        assert multiset(Kept(records, hidden)) == multiset{records[0]} + multiset(Kept(records[1..], hidden));
      } else {
        assert Kept(records, hidden) == Kept(records[1..], hidden);
      }
    }
  }

  /** The returned length is what the buffer held less the lengths of the hidden records. */
  lemma {:induction false} KeptLength(records: seq<seq<byte>>, hidden: Name -> bool)
    requires AllRecords(records)
    ensures |Flatten(Kept(records, hidden))| + HiddenLength(records, hidden) == |Flatten(records)|
  {
    if records != [] {
      KeptLength(records[1..], hidden);
      if Keeps(records[0], hidden) {
        assert Kept(records, hidden)[1..] == Kept(records[1..], hidden);
      } else {
        assert Kept(records, hidden) == Kept(records[1..], hidden);
      }
    }
  }

  function HiddenLength(records: seq<seq<byte>>, hidden: Name -> bool): nat
    requires AllRecords(records)
  {
    if records == [] then 0
    else (if Keeps(records[0], hidden) then 0 else |records[0]|) + HiddenLength(records[1..], hidden)
  }

  lemma {:induction false} KeptAreRecords(records: seq<seq<byte>>, hidden: Name -> bool)
    requires AllRecords(records)
    ensures AllRecords(Kept(records, hidden))
  {
    if records != [] {
      KeptAreRecords(records[1..], hidden);
    }
  }

  /** Filtering in two passes is filtering once by both predicates. */
  lemma {:induction false} KeptTwice(records: seq<seq<byte>>, hidden: Name -> bool, also: Name -> bool)
    requires AllRecords(records)
    ensures AllRecords(Kept(records, hidden))
    ensures Kept(Kept(records, hidden), also) == Kept(records, name => hidden(name) || also(name))
  {
    KeptAreRecords(records, hidden);
    if records != [] {
      KeptTwice(records[1..], hidden, also);
      if Keeps(records[0], hidden) {
        assert Kept(records, hidden)[1..] == Kept(records[1..], hidden);
      } else {
        assert Kept(records, hidden) == Kept(records[1..], hidden);
      }
    }
  }
}
