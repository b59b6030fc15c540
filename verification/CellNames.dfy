/** The names and numbers of cells, and the file that keeps the numbers from one start of the
    cache manager to the next. */
module CellNames {
  import opened Basics

  const AFS_CELLINFO_MAGIC: int := 0xf328_17cd - TWO32

  /** The four bytes of an integer, least significant first. */
  function Enc(x: int): (b: Bytes)
    ensures |b| == 4
  {
    var u0 := x % TWO32;
    var u1 := u0 / 256;
    var u2 := u1 / 256;
    [u0 % 256, u1 % 256, u2 % 256, u2 / 256]
  }

  function Dec(b: Bytes): (x: int)
    requires |b| >= 4
    ensures Int32(x)
  {
    var b0: int, b1: int, b2: int, b3: int := b[0], b[1], b[2], b[3];
    Wrap32(b0 + 256 * (b1 + 256 * (b2 + 256 * b3)))
  }

  lemma DecEnc(x: int, tail: Bytes)
    requires Int32(x)
    ensures Dec(Enc(x) + tail) == x
  {
    var u0 := x % TWO32;
    var u1 := u0 / 256;
    var u2 := u1 / 256;
    var b := Enc(x) + tail;
    assert b[0] == u0 % 256 && b[1] == u1 % 256 && b[2] == u2 % 256 && b[3] == u2 / 256;
    assert u2 == u2 % 256 + 256 * (u2 / 256);
    assert u1 == u1 % 256 + 256 * u2;
    assert u0 == u0 % 256 + 256 * u1;
  }

  /** A C string: no byte is 0. */
  predicate IsName(s: Bytes)
  {
    0 !in s
  }

  /** What strdup and strcmp see of a buffer: the bytes before the first 0. */
  function CStr(s: Bytes): (r: Bytes)
    ensures IsName(r) && (IsName(s) ==> r == s)
  {
    if s == [] || s[0] == 0 then [] else [s[0]] + CStr(s[1..])
  }

  datatype CellName = CellName(num: int, name: Bytes, used: bool)

  /** The list, newest first, and the next number to give out. */
  datatype Names = Names(list: seq<CellName>, next: int)

  predicate HasName(l: seq<CellName>, name: Bytes)
  {
    exists i :: 0 <= i < |l| && l[i].name == name
  }

  predicate HasNum(l: seq<CellName>, num: int)
  {
    exists i :: 0 <= i < |l| && l[i].num == num
  }

  /** afs_cellname_new. */
  function New(n: Names, name: Bytes, cellnum: int): Names
  {
    var num := if cellnum == 0 then n.next else cellnum;
    Names([CellName(num, name, false)] + n.list, if num >= n.next then Wrap32(num + 1) else n.next)
  }

  // ---------------------------------------------------------------- the file

  function Record(c: CellName): Bytes
  {
    Enc(AFS_CELLINFO_MAGIC) + Enc(c.num) + Enc(|c.name|) + c.name
  }

  /** What afs_cellname_write writes. */
  function File(l: seq<CellName>): Bytes
  {
    if l == [] then [] else (if l[0].used then Record(l[0]) else []) + File(l[1..])
  }

  /** The file after it has been written over its old contents, which are not truncated. */
  function Written(l: seq<CellName>, before: Bytes): Bytes
  {
    File(l) + if |File(l)| < |before| then before[|File(l)|..] else []
  }

  datatype Parsed = Stop | Cell(num: int, name: Bytes, size: nat)

  /** The record at the front, if there is a whole one. */
  function Parse(b: Bytes): (p: Parsed)
    ensures p.Cell? ==> 12 <= p.size <= |b| && IsName(p.name)
  {
    if |b| < 4 || Dec(b) != AFS_CELLINFO_MAGIC || |b| < 12 then Stop
    else
      var num, len := Dec(b[4..]), Dec(b[8..]);
      if len < 0 || |b| < 12 + len then Stop else Cell(num, CStr(b[12..12 + len]), 12 + len)
  }

  /** What afs_cellname_init makes of a file: records up to the first that is no record or
      repeats a name or a number. */
  function Load(b: Bytes, n: Names): Names
    decreases |b|
  {
    var p := Parse(b);
    if p.Stop? || HasName(n.list, p.name) || HasNum(n.list, p.num) then n
    else Load(b[p.size..], New(n, p.name, p.num))
  }

  lemma ParseRecord(c: CellName, tail: Bytes)
    requires Int32(c.num) && |c.name| <= INT32_MAX && IsName(c.name)
    ensures Parse(Record(c) + tail) == Cell(c.num, c.name, |Record(c)|)
    ensures (Record(c) + tail)[|Record(c)|..] == tail
  {
    var m, n, k := Enc(AFS_CELLINFO_MAGIC), Enc(c.num), Enc(|c.name|);
    DecEnc(AFS_CELLINFO_MAGIC, n + k + c.name + tail);
    DecEnc(c.num, k + c.name + tail);
    DecEnc(|c.name|, c.name + tail);
    Pieces(m, n, k, c.name, tail);
  }

  /** Taking a record apart. */
  lemma Pieces(m: Bytes, n: Bytes, k: Bytes, name: Bytes, tail: Bytes)
    requires |m| == |n| == |k| == 4
    ensures var b := m + n + k + name + tail;
            && b == m + (n + k + name + tail) && b[4..] == n + (k + name + tail) && b[8..] == k + (name + tail)
            && b[12..12 + |name|] == name && b[12 + |name|..] == tail
  {
  }

  // ---------------------------------------------------------------- what loading keeps

  predicate HasCell(l: seq<CellName>, num: int, name: Bytes)
  {
    exists i :: 0 <= i < |l| && l[i].num == num && l[i].name == name
  }

  ghost predicate DistinctNames(l: seq<CellName>)
  {
    forall i, j :: 0 <= i < j < |l| ==> l[i].name != l[j].name
  }

  ghost predicate DistinctNums(l: seq<CellName>)
  {
    forall i, j :: 0 <= i < j < |l| ==> l[i].num != l[j].num
  }

  /** The next number is above all numbers given out. */
  ghost predicate AllBelow(n: Names)
  {
    forall i :: 0 <= i < |n.list| ==> n.list[i].num < n.next
  }

  /** Names and numbers are unique, representable, and the next number is free. */
  ghost predicate Tidy(n: Names)
  {
    && DistinctNames(n.list) && DistinctNums(n.list) && AllBelow(n) && 1 <= n.next <= INT32_MAX
    && forall i :: 0 <= i < |n.list| ==> Int32(n.list[i].num) && n.list[i].num != 0 && IsName(n.list[i].name)
  }

  lemma NewTidy(n: Names, name: Bytes, num: int)
    requires Tidy(n) && IsName(name) && Int32(num) && !HasName(n.list, name) && !HasNum(n.list, num)
    requires num != INT32_MAX && (num == 0 ==> n.next != INT32_MAX)
    ensures Tidy(New(n, name, num))
  {
  }

  /** Nothing is forgotten, and no name is ever listed twice. */
  lemma {:induction false} LoadExtends(b: Bytes, n: Names) returns (more: seq<CellName>)
    requires DistinctNames(n.list)
    ensures Load(b, n).list == more + n.list && DistinctNames(Load(b, n).list)
    decreases |b|
  {
    var p := Parse(b);
    if p.Cell? && !HasName(n.list, p.name) && !HasNum(n.list, p.num) {
      var m := New(n, p.name, p.num);
      more := LoadExtends(b[p.size..], m);
      Assoc(more, [m.list[0]], n.list);
      more := more + [m.list[0]];
    } else {
      more := [];
    }
  }

  lemma Assoc<T>(a: seq<T>, b: seq<T>, c: seq<T>)
    ensures a + b + c == a + (b + c)
  {
  }

  /** Some record of the file, read before reading stops, carries the largest 32-bit number, or
      carries 0 when that number is the next to be given out. */
  predicate ReachesMax(b: Bytes, n: Names)
    decreases |b|
  {
    var p := Parse(b);
    && p.Cell? && !HasName(n.list, p.name) && !HasNum(n.list, p.num)
    && (p.num == INT32_MAX || (p.num == 0 && n.next == INT32_MAX) || ReachesMax(b[p.size..], New(n, p.name, p.num)))
  }

  /** Whatever the file holds, everything stays in order if and only if none of its records
      leads to the largest 32-bit number, after which the next number wraps round. */
  lemma {:induction false} LoadTidy(b: Bytes, n: Names)
    requires Tidy(n)
    ensures Tidy(Load(b, n)) <==> !ReachesMax(b, n)
    ensures AllBelow(Load(b, n)) <==> !ReachesMax(b, n)
    decreases |b|
  {
    var p := Parse(b);
    if p.Cell? && !HasName(n.list, p.name) && !HasNum(n.list, p.num) {
      var m := New(n, p.name, p.num);
      if m.list[0].num == INT32_MAX {
        LoadWrapped(b[p.size..], m);
      } else {
        NewTidy(n, p.name, p.num);
        LoadTidy(b[p.size..], m);
      }
    }
  }

  /** A file of one record that breaks the order: the only cell has the largest number, and the
      next number to be given out is the smallest. */
  lemma MaxBreaksOrder(name: Bytes)
    requires IsName(name) && |name| <= INT32_MAX
    ensures var n := Load(Record(CellName(INT32_MAX, name, true)), Names([], 1));
            n == Names([CellName(INT32_MAX, name, false)], INT32_MIN) && !Tidy(n)
  {
    var c, n := CellName(INT32_MAX, name, true), Names([], 1);
    StepRecord(c, [], n);
    assert Record(c) + [] == Record(c);
    var m := New(n, name, INT32_MAX);
    assert m.list == [CellName(INT32_MAX, name, false)];
    assert Load([], m) == m;
    assert m.list[0].num >= m.next;
  }

  /** Once the largest number is on the list, no 32-bit number is above it. */
  lemma LoadWrapped(b: Bytes, n: Names)
    requires DistinctNames(n.list) && HasNum(n.list, INT32_MAX) && Int32(n.next)
    ensures HasNum(Load(b, n).list, INT32_MAX) && !AllBelow(Load(b, n))
  {
    var more := LoadExtends(b, n);
    NextFits(b, n);
    var i :| 0 <= i < |n.list| && n.list[i].num == INT32_MAX;
    assert Load(b, n).list[|more| + i] == n.list[i];
  }

  lemma {:induction false} NextFits(b: Bytes, n: Names)
    requires Int32(n.next)
    ensures Int32(Load(b, n).next)
    decreases |b|
  {
    var p := Parse(b);
    if p.Cell? && !HasName(n.list, p.name) && !HasNum(n.list, p.num) {
      NextFits(b[p.size..], New(n, p.name, p.num));
    }
  }

  // ---------------------------------------------------------------- round trip

  /** Everything that afs_cellname_write can write can be read back. */
  ghost predicate Writable(l: seq<CellName>)
  {
    && DistinctNames(l) && DistinctNums(l)
    && forall i :: 0 <= i < |l| ==> Int32(l[i].num) && l[i].num != 0 && IsName(l[i].name) && |l[i].name| <= INT32_MAX
  }

  /** Neither name nor number of any on the list is known yet. */
  ghost predicate AllNew(l: seq<CellName>, n: Names)
  {
    forall i :: 0 <= i < |l| ==> !HasName(n.list, l[i].name) && !HasNum(n.list, l[i].num)
  }

  lemma StepRecord(c: CellName, tail: Bytes, n: Names)
    requires Int32(c.num) && c.num != 0 && IsName(c.name) && |c.name| <= INT32_MAX
    requires !HasName(n.list, c.name) && !HasNum(n.list, c.num)
    ensures Load(Record(c) + tail, n) == Load(tail, New(n, c.name, c.num))
  {
    ParseRecord(c, tail);
  }

  function Restored(n: Names, c: CellName): Names
  {
    if c.used then New(n, c.name, c.num) else n
  }

  lemma FirstOfFile(l: seq<CellName>, tail: Bytes, n: Names)
    requires l != [] && Writable(l) && AllNew(l, n)
    ensures Load(File(l) + tail, n) == Load(File(l[1..]) + tail, Restored(n, l[0]))
  {
    var b := File(l[1..]) + tail;
    if l[0].used {
      StepRecord(l[0], b, n);
      Assoc(Record(l[0]), File(l[1..]), tail);
    } else {
      assert File(l) == File(l[1..]);
    }
  }

  lemma RestNew(l: seq<CellName>, n: Names)
    requires l != [] && Writable(l) && AllNew(l, n) && DistinctNames(n.list)
    ensures var m := Restored(n, l[0]); Writable(l[1..]) && AllNew(l[1..], m) && DistinctNames(m.list)
  {
  }

  /** A cell on the list stays there. */
  lemma LoadKeeps(b: Bytes, n: Names, num: int, name: Bytes)
    requires DistinctNames(n.list) && HasCell(n.list, num, name)
    ensures HasCell(Load(b, n).list, num, name)
  {
    var more := LoadExtends(b, n);
    var i :| 0 <= i < |n.list| && n.list[i].num == num && n.list[i].name == name;
    assert Load(b, n).list[|more| + i] == n.list[i];
  }

  /** Reading back a file that begins with what was written, whatever comes after it, restores
      every used cell with its number. */
  lemma {:induction false} RoundTrip(l: seq<CellName>, tail: Bytes, n: Names, i: nat)
    requires Writable(l) && AllNew(l, n) && DistinctNames(n.list) && i < |l| && l[i].used
    ensures HasCell(Load(File(l) + tail, n).list, l[i].num, l[i].name)
    decreases |l|
  {
    var m := Restored(n, l[0]);
    FirstOfFile(l, tail, n);
    RestNew(l, n);
    if i == 0 {
      assert m.list[0].num == l[0].num && m.list[0].name == l[0].name;
      LoadKeeps(File(l[1..]) + tail, m, l[0].num, l[0].name);
    } else {
      RoundTrip(l[1..], tail, m, i - 1);
    }
  }

  /** A file with nothing behind what was written never leads to the largest number. */
  lemma {:induction false} WrittenTidy(l: seq<CellName>, n: Names)
    requires Writable(l) && AllNew(l, n) && DistinctNames(n.list) && forall i :: 0 <= i < |l| ==> l[i].num < INT32_MAX
    ensures !ReachesMax(File(l) + [], n)
    decreases |l|
  {
    if l != [] {
      RestNew(l, n);
      WrittenTidy(l[1..], Restored(n, l[0]));
      if l[0].used {
        ParseRecord(l[0], File(l[1..]) + []);
        Assoc(Record(l[0]), File(l[1..]), []);
      } else {
        assert File(l) == File(l[1..]);
      }
    }
  }

  // ---------------------------------------------------------------- the operations

  class CellTable {
    var list: seq<CellName>
    var next: int

    function N(): Names
      reads this
    {
      Names(list, next)
    }

    constructor ()
      ensures list == [] && next == 1
    {
      list, next := [], 1;
    }

    method Add(name: Bytes, cellnum: int)
      modifies this
      ensures N() == New(old(N()), name, cellnum)
    {
      var num := if cellnum == 0 then next else cellnum;
      list := [CellName(num, name, false)] + list;
      if num >= next {
        next := Wrap32(num + 1);
      }
    }

    method LookupId(cellnum: int) returns (i: nat)
      ensures i <= |list| && (i < |list| <==> HasNum(list, cellnum))
      ensures i < |list| ==> list[i].num == cellnum && forall j :: 0 <= j < i ==> list[j].num != cellnum
    {
      i := 0;
      while i < |list| && list[i].num != cellnum
        invariant 0 <= i <= |list| && forall j :: 0 <= j < i ==> list[j].num != cellnum
      {
        i := i + 1;
      }
    }

    method LookupName(name: Bytes) returns (i: nat)
      ensures i <= |list| && (i < |list| <==> HasName(list, name))
      ensures i < |list| ==> list[i].name == name && forall j :: 0 <= j < i ==> list[j].name != name
    {
      i := 0;
      while i < |list| && list[i].name != name
        invariant 0 <= i <= |list| && forall j :: 0 <= j < i ==> list[j].name != name
      {
        i := i + 1;
      }
    }

    /** afs_cellname_init, from a file's contents. */
    method Init(file: Bytes)
      requires list == []
      modifies this
      ensures N() == Load(file, Names([], 1))
    {
      next := 1;
      var off := 0;
      while true
        invariant 0 <= off <= |file| && Load(file[off..], N()) == Load(file, Names([], 1))
        decreases |file| - off
      {
        var b := file[off..];
        if |b| < 4 || Dec(b) != AFS_CELLINFO_MAGIC || |b| < 12 {
          break;
        }
        var cellnum, clen := Dec(b[4..]), Dec(b[8..]);
        if clen < 0 || |b| < 12 + clen {
          break;
        }
        var cellname := CStr(b[12..12 + clen]);
        var i := LookupName(cellname);
        var j := LookupId(cellnum);
        if i < |list| || j < |list| {
          break;
        }
        off := off + 12 + clen;
        assert file[off..] == b[12 + clen..];
        Add(cellname, cellnum);
      }
    }

    /** afs_cellname_write over the file's old contents. */
    method Write(before: Bytes) returns (file: Bytes)
      ensures file == Written(list, before)
    {
      var out, i := [], 0;
      while i < |list|
        invariant 0 <= i <= |list| && out + File(list[i..]) == File(list)
      {
        FileStep(list, i, out);
        if list[i].used {
          out := WriteRecord(out, list[i]);
        }
        i := i + 1;
      }
      file := out + if |out| < |before| then before[|out|..] else [];
    }
  }

  lemma FileStep(l: seq<CellName>, i: nat, out: Bytes)
    requires i < |l| && out + File(l[i..]) == File(l)
    ensures (if l[i].used then out + Record(l[i]) else out) + File(l[i + 1..]) == File(l)
  {
  }

  method WriteRecord(out: Bytes, c: CellName) returns (r: Bytes)
    ensures r == out + Record(c)
  {
    r := out + Enc(AFS_CELLINFO_MAGIC);
    r := r + Enc(c.num);
    r := r + Enc(|c.name|);
    r := r + c.name;
  }

  /** Written, then read after a restart: the used cells have their numbers again. */
  method Restart(t: CellTable, before: Bytes) returns (u: CellTable)
    requires Tidy(t.N()) && forall i :: 0 <= i < |t.list| ==> |t.list[i].name| <= INT32_MAX
    ensures forall i :: 0 <= i < |t.list| && t.list[i].used ==> HasCell(u.list, t.list[i].num, t.list[i].name)
    ensures DistinctNames(u.list) && (Tidy(u.N()) <==> !ReachesMax(Written(t.list, before), Names([], 1)))
    ensures |before| <= |File(t.list)| ==> Tidy(u.N())
  {
    var file := t.Write(before);
    u := new CellTable();
    u.Init(file);
    var tail := file[|File(t.list)|..];
    assert file == File(t.list) + tail;
    forall i | 0 <= i < |t.list| && t.list[i].used ensures HasCell(u.list, t.list[i].num, t.list[i].name) {
      RoundTrip(t.list, tail, Names([], 1), i);
    }
    ghost var more := LoadExtends(file, Names([], 1));
    LoadTidy(file, Names([], 1));
    if tail == [] {
      WrittenTidy(t.list, Names([], 1));
    }
  }
}
