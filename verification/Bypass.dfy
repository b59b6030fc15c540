/** afs_NoCacheFetchProc: reply bytes, arriving in pieces of any size, copied into pages of any
    size, some of them absent. */
module Bypass {
  import opened Basics

  /** What rx_Readv returns: a negative code, or the pieces it has read. */
  datatype Piece = Failed(code: int) | Data(iovs: seq<Bytes>)

  function Flatten(iovs: seq<Bytes>): Bytes
  {
    if iovs == [] then [] else iovs[0] + Flatten(iovs[1..])
  }

  /** The bytes not yet copied of the pieces at hand. */
  function Rest(iovs: seq<Bytes>, iovno: nat, iovoff: nat): Bytes
    requires iovno <= |iovs| && (iovno < |iovs| ==> iovoff <= |iovs[iovno]|)
  {
    if iovno == |iovs| then [] else iovs[iovno][iovoff..] + Flatten(iovs[iovno + 1..])
  }

  /** What a read adds to the stream. */
  function Delivered(p: Piece): Bytes
  {
    if p.Data? then Flatten(p.iovs) else []
  }

  /** Everything that the first `calls` reads of a reply of `length` bytes deliver, each asking
      for all that is still to come. */
  function Reads(rx: (nat, nat) -> Piece, calls: nat, length: nat): Bytes
  {
    if calls == 0 then [] else
      var before := Reads(rx, calls - 1, length);
      before + Delivered(rx(calls - 1, Missing(length, before)))
  }

  function Missing(length: nat, before: Bytes): nat
  {
    if |before| <= length then length - |before| else 0
  }

  /** The result of the read numbered n: its code, or an error if it delivers nothing. */
  function ReadResult(rx: (nat, nat) -> Piece, n: nat, length: nat): int
  {
    var p := rx(n, Missing(length, Reads(rx, n, length)));
    if p.Failed? then p.code else if Flatten(p.iovs) == [] then EIO else 0
  }

  /** Where page k begins in the stream. */
  function Start(lens: seq<nat>, k: nat): nat
    requires k <= |lens|
  {
    if k == 0 then 0 else Start(lens, k - 1) + lens[k - 1]
  }

  /** Page k, if it is wanted, holds those of the first `copied` bytes of the stream that belong
      there; everything else is as it was. */
  ghost predicate PageFilled(was: seq<Bytes>, mem: seq<Bytes>, lens: seq<nat>, present: seq<bool>, stream: Bytes, copied: nat, k: nat)
    requires k < |was| == |mem| == |lens| == |present| && copied <= |stream|
  {
    && |was[k]| == |mem[k]| == lens[k]
    && (forall j :: 0 <= j < lens[k] ==>
          mem[k][j] == if present[k] && Start(lens, k) + j < copied then stream[Start(lens, k) + j] else was[k][j])
  }

  ghost predicate Filled(was: seq<Bytes>, mem: seq<Bytes>, lens: seq<nat>, present: seq<bool>, stream: Bytes, copied: nat)
  {
    && |was| == |mem| == |lens| == |present| && copied <= |stream|
    && (forall k :: 0 <= k < |mem| ==> PageFilled(was, mem, lens, present, stream, copied, k))
  }

  lemma {:induction false} StartGrows(lens: seq<nat>, i: nat, j: nat)
    requires i < j <= |lens|
    ensures Start(lens, i) + lens[i] <= Start(lens, j)
    decreases j
  {
    if i < j - 1 {
      StartGrows(lens, i, j - 1);
    }
  }

  /** Copying the next n bytes into the current page. */
  lemma FilledMore(was: seq<Bytes>, mem: seq<Bytes>, now: seq<Bytes>, lens: seq<nat>, present: seq<bool>, stream: Bytes,
                   cur: nat, off: nat, n: nat)
    requires cur < |mem| == |lens| && off + n <= lens[cur] && Start(lens, cur) + off + n <= |stream|
    requires Filled(was, mem, lens, present, stream, Start(lens, cur) + off)
    requires |now| == |mem| && |now[cur]| == lens[cur] && forall k :: 0 <= k < |mem| && k != cur ==> now[k] == mem[k]
    requires |mem[cur]| == lens[cur]
    requires forall j :: 0 <= j < lens[cur] ==>
               now[cur][j] == if present[cur] && off <= j < off + n then stream[Start(lens, cur) + j] else mem[cur][j]
    ensures Filled(was, now, lens, present, stream, Start(lens, cur) + off + n)
  {
    var c := Start(lens, cur) + off;
    var d := c + n;
    forall k | 0 <= k < |now| ensures PageFilled(was, now, lens, present, stream, d, k) {
      assert PageFilled(was, mem, lens, present, stream, c, k);
      if k < cur {
        StartGrows(lens, k, cur);
      } else if cur < k {
        StartGrows(lens, cur, k);
      }
    }
  }

  /** More of the stream arriving changes nothing that was copied. */
  lemma FilledLonger(was: seq<Bytes>, mem: seq<Bytes>, lens: seq<nat>, present: seq<bool>, stream: Bytes, more: Bytes, copied: nat)
    requires Filled(was, mem, lens, present, stream, copied)
    ensures Filled(was, mem, lens, present, stream + more, copied)
  {
    forall k | 0 <= k < |mem| ensures PageFilled(was, mem, lens, present, stream + more, copied, k) {
      assert PageFilled(was, mem, lens, present, stream, copied, k);
    }
  }

  lemma NothingFilled(mem: seq<Bytes>, lens: seq<nat>, present: seq<bool>)
    requires |lens| == |present| == |mem| && forall k :: 0 <= k < |mem| ==> |mem[k]| == lens[k]
    ensures Filled(mem, mem, lens, present, [], 0)
  {
  }

  /** When everything read has been copied, the next read asks for exactly what is missing. */
  lemma NextRead(rx: (nat, nat) -> Piece, calls: nat, length: nat)
    requires Sound(rx) && |Reads(rx, calls, length)| <= length
    ensures var s := Reads(rx, calls, length); var more := Delivered(rx(calls, length - |s|));
            Reads(rx, calls + 1, length) == s + more && |more| <= length - |s| && Missing(length, s) == length - |s|
  {
  }

  lemma AllAtHand(iovs: seq<Bytes>)
    ensures Rest(iovs, 0, 0) == Flatten(iovs)
  {
    if iovs != [] {
      assert iovs[0][0..] == iovs[0];
    }
  }

  lemma RestWhole(iovs: seq<Bytes>, iovno: nat, iovoff: nat)
    requires iovno < |iovs| && iovoff <= |iovs[iovno]|
    ensures Rest(iovs, iovno, iovoff)[|iovs[iovno]| - iovoff..] == Rest(iovs, iovno + 1, 0)
  {
  }

  lemma RestPart(iovs: seq<Bytes>, iovno: nat, iovoff: nat, n: nat)
    requires iovno < |iovs| && iovoff + n <= |iovs[iovno]|
    ensures Rest(iovs, iovno, iovoff)[n..] == Rest(iovs, iovno, iovoff + n)
    ensures Rest(iovs, iovno, iovoff)[..n] == iovs[iovno][iovoff..iovoff + n]
  {
    Split(iovs[iovno], Flatten(iovs[iovno + 1..]), iovoff, n);
  }

  lemma Split(a: Bytes, b: Bytes, off: nat, n: nat)
    requires off + n <= |a|
    ensures (a[off..] + b)[n..] == a[off + n..] + b && (a[off..] + b)[..n] == a[off..off + n]
  {
  }

  // ---------------------------------------------------------------- the copy, as values

  /** What does not change: iov_len of each page and whether it is wanted, what the pages held
      before, and the length that the server announced. */
  datatype Plan = Plan(lens: seq<nat>, present: seq<bool>, was: seq<Bytes>, reply: nat)

  /** The pages, the place in them, the pieces at hand and the place in them, the bytes of the
      reply not yet copied, the number of reads, and what they have delivered. */
  datatype Place = Place(mem: seq<Bytes>, curpage: nat, pageoff: nat, iovs: seq<Bytes>, iovno: nat, iovoff: nat,
                         length: nat, calls: nat, stream: Bytes)

  function Copied(lens: seq<nat>, curpage: nat, pageoff: nat): nat
    requires curpage <= |lens|
  {
    Start(lens, curpage) + pageoff
  }

  ghost predicate InPages(p: Plan, s: Place)
  {
    s.curpage <= |p.lens| && (if s.curpage < |p.lens| then s.pageoff <= p.lens[s.curpage] else s.pageoff == 0)
  }

  ghost predicate InPieces(s: Place)
  {
    s.iovno <= |s.iovs| && (if s.iovno < |s.iovs| then s.iovoff <= |s.iovs[s.iovno]| else s.iovoff == 0)
  }

  /** What has been copied and what is at hand make up what the reads delivered, and the pages
      hold what has been copied. */
  ghost predicate Consistent(p: Plan, s: Place)
  {
    && InPages(p, s) && InPieces(s)
    && var c := Copied(p.lens, s.curpage, s.pageoff);
    && c + s.length == p.reply && c <= |s.stream| <= p.reply && s.stream[c..] == Rest(s.iovs, s.iovno, s.iovoff)
    && Filled(p.was, s.mem, p.lens, p.present, s.stream, c)
  }

  /** The stream is what the reads delivered. */
  ghost predicate Arrived(rx: (nat, nat) -> Piece, reply: nat, calls: nat, stream: Bytes)
  {
    Sound(rx) && stream == Reads(rx, calls, reply)
  }

  /** More of the stream at hand, with nothing left of what was at hand before. */
  lemma LongerConsistent(p: Plan, s: Place, more: seq<Bytes>, calls: nat)
    requires Consistent(p, s) && s.iovno == |s.iovs| && |Flatten(more)| <= s.length
    ensures Consistent(p, s.(iovs := more, iovno := 0, iovoff := 0, calls := calls, stream := s.stream + Flatten(more)))
    ensures Rest(more, 0, 0) == Flatten(more)
  {
    var c := Copied(p.lens, s.curpage, s.pageoff);
    AllAtHand(more);
    assert s.stream == s.stream[..c];
    assert (s.stream + Flatten(more))[c..] == Flatten(more);
    FilledLonger(p.was, s.mem, p.lens, p.present, s.stream, Flatten(more), c);
  }

  /** With nothing at hand, all that was read has been copied. */
  lemma AllCopied(p: Plan, s: Place)
    requires Consistent(p, s) && s.iovno == |s.iovs|
    ensures |s.stream| <= p.reply && s.length == p.reply - |s.stream|
  {
  }

  /** There is room on the page and there are pieces to copy. */
  predicate Ready(p: Plan, s: Place)
  {
    s.curpage < |p.lens| && s.pageoff < p.lens[s.curpage] && s.iovno < |s.iovs|
  }

  /** n bytes can be copied from the piece to the page. */
  predicate CanCopy(p: Plan, s: Place, n: nat)
  {
    Ready(p, s) && s.pageoff + n <= p.lens[s.curpage] && s.iovoff + n <= |s.iovs[s.iovno]|
  }

  /** A page after some bytes have been copied to it. */
  function Pasted(page: Bytes, off: nat, bytes: Bytes): (r: Bytes)
    requires off + |bytes| <= |page|
    ensures |r| == |page| && forall j :: 0 <= j < |r| ==> r[j] == if off <= j < off + |bytes| then bytes[j - off] else page[j]
  {
    page[..off] + bytes + page[off + |bytes|..]
  }

  /** The pages after n bytes have been copied from the piece to the page. */
  ghost function Copy(p: Plan, s: Place, n: nat): seq<Bytes>
    requires Consistent(p, s) && CanCopy(p, s, n)
  {
    assert PageFilled(p.was, s.mem, p.lens, p.present, s.stream, Copied(p.lens, s.curpage, s.pageoff), s.curpage);
    if p.present[s.curpage] then
      s.mem[s.curpage := Pasted(s.mem[s.curpage], s.pageoff, s.iovs[s.iovno][s.iovoff..s.iovoff + n])]
    else s.mem
  }

  /** The next byte of the stream is the next byte at hand. */
  lemma NextByte(stream: Bytes, c: nat, iovs: seq<Bytes>, iovno: nat, iovoff: nat, j: nat)
    requires c <= |stream| && iovno < |iovs| && iovoff + j < |iovs[iovno]| && stream[c..] == Rest(iovs, iovno, iovoff)
    ensures c + j < |stream| && stream[c + j] == iovs[iovno][iovoff + j]
  {
    assert stream[c..][j] == iovs[iovno][iovoff..][j];
  }

  lemma CopyFits(p: Plan, s: Place, n: nat)
    requires Consistent(p, s) && CanCopy(p, s, n)
    ensures n <= s.length && Copied(p.lens, s.curpage, s.pageoff) + n <= |s.stream|
  {
    if n > 0 {
      NextByte(s.stream, Copied(p.lens, s.curpage, s.pageoff), s.iovs, s.iovno, s.iovoff, n - 1);
    }
  }

  lemma CopyFills(p: Plan, s: Place, n: nat)
    requires Consistent(p, s) && CanCopy(p, s, n)
    ensures var c := Copied(p.lens, s.curpage, s.pageoff);
            c + n <= |s.stream| && n <= s.length && Filled(p.was, Copy(p, s, n), p.lens, p.present, s.stream, c + n)
  {
    var c, now := Copied(p.lens, s.curpage, s.pageoff), Copy(p, s, n);
    CopyFits(p, s, n);
    assert PageFilled(p.was, s.mem, p.lens, p.present, s.stream, c, s.curpage);
    forall j | 0 <= j < p.lens[s.curpage] ensures
        now[s.curpage][j] == if p.present[s.curpage] && s.pageoff <= j < s.pageoff + n then s.stream[Start(p.lens, s.curpage) + j]
                             else s.mem[s.curpage][j] {
      if s.pageoff <= j < s.pageoff + n {
        NextByte(s.stream, c, s.iovs, s.iovno, s.iovoff, j - s.pageoff);
      }
    }
    FilledMore(p.was, s.mem, now, p.lens, p.present, s.stream, s.curpage, s.pageoff, n);
  }

  /** The piece is used up. */
  lemma WholeKeeps(p: Plan, s: Place, n: nat)
    requires Consistent(p, s) && CanCopy(p, s, n) && s.iovoff + n == |s.iovs[s.iovno]| && n <= s.length
    ensures var t := s.(mem := Copy(p, s, n), length := s.length - n, pageoff := s.pageoff + n, iovno := s.iovno + 1, iovoff := 0);
            Consistent(p, t) && Rest(t.iovs, t.iovno, t.iovoff) == Rest(s.iovs, s.iovno, s.iovoff)[n..]
  {
    var c, stream := Copied(p.lens, s.curpage, s.pageoff), s.stream;
    CopyFills(p, s, n);
    RestWhole(s.iovs, s.iovno, s.iovoff);
    assert stream[c + n..] == stream[c..][n..];
  }

  /** The page is full. */
  lemma PartKeeps(p: Plan, s: Place, n: nat)
    requires Consistent(p, s) && CanCopy(p, s, n) && n <= s.length
    ensures Consistent(p, s.(mem := Copy(p, s, n), length := s.length - n, pageoff := s.pageoff + n, iovoff := s.iovoff + n))
  {
    var c, stream := Copied(p.lens, s.curpage, s.pageoff), s.stream;
    CopyFills(p, s, n);
    RestPart(s.iovs, s.iovno, s.iovoff, n);
    assert stream[c + n..] == stream[c..][n..];
  }

  // ---------------------------------------------------------------- the copy

  class Fetch {
    const lens: seq<nat>
    const present: seq<bool>
    const rx: (nat, nat) -> Piece
    var mem: seq<Bytes>
    var curpage: nat
    var pageoff: nat
    var iovs: seq<Bytes>
    var iovno: nat
    var iovoff: nat
    var length: nat
    var calls: nat
    ghost const was: seq<Bytes>
    ghost const reply: nat
    ghost var stream: Bytes

    ghost function P(): Plan
    {
      Plan(lens, present, was, reply)
    }

    ghost function S(): Place
      reads this
    {
      Place(mem, curpage, pageoff, iovs, iovno, iovoff, length, calls, stream)
    }

    ghost predicate Valid()
      reads this
    {
      Consistent(P(), S()) && Arrived(rx, reply, calls, stream)
    }

    constructor (lens: seq<nat>, present: seq<bool>, mem: seq<Bytes>, length: nat, rx: (nat, nat) -> Piece)
      requires |lens| == |present| == |mem| && (forall k :: 0 <= k < |mem| ==> |mem[k]| == lens[k]) && Sound(rx)
      ensures Valid() && curpage == pageoff == 0 && P() == Plan(lens, present, mem, length) && this.rx == rx
    {
      NothingFilled(mem, lens, present);
      this.lens, this.present, this.mem, this.was := lens, present, mem, mem;
      this.length, reply := length, length;
      this.rx, calls, stream := rx, 0, [];
      curpage, pageoff, iovs, iovno, iovoff := 0, 0, [], 0, 0;
    }

    /** rx_Readv has returned more pieces. */
    method Arrive(more: seq<Bytes>)
      requires Valid() && iovno == |iovs| && rx(calls, length) == Data(more)
      modifies this`iovs, this`iovno, this`iovoff, this`calls, this`stream
      ensures Valid() && iovs == more && iovno == iovoff == 0 && calls == old(calls) + 1 && stream == old(stream) + Flatten(more)
      ensures Rest(iovs, 0, 0) == Flatten(more)
    {
      AllCopied(P(), S());
      NextRead(rx, calls, reply);
      LongerConsistent(P(), S(), more, calls + 1);
      calls, stream := calls + 1, stream + Flatten(more);
      iovs, iovno, iovoff := more, 0, 0;
    }

    /** rx_Readv has failed, or returned nothing. */
    method ReadNothing() returns (result: int)
      requires Valid() && iovno == |iovs| && Delivered(rx(calls, length)) == []
      modifies this`calls
      ensures Valid() && calls == old(calls) + 1 && result == ReadResult(rx, old(calls), reply)
    {
      AllCopied(P(), S());
      NextRead(rx, calls, reply);
      assert stream + [] == stream;
      result := if rx(calls, length).Failed? then rx(calls, length).code else EIO;
      calls := calls + 1;
    }

    /** Whether there is nothing at hand to copy. */
    ghost predicate Dry()
      requires InPieces(S())
      reads this
    {
      Rest(iovs, iovno, iovoff) == []
    }

    /** afs_bypass_copy_page, for n bytes; the copy stays within the page and the piece. */
    method CopyPage(n: nat)
      requires Consistent(P(), S()) && CanCopy(P(), S(), n)
      modifies this`mem
      ensures mem == Copy(P(), old(S()), n)
    {
      assert PageFilled(was, mem, lens, present, stream, Copied(lens, curpage, pageoff), curpage);
      if present[curpage] {
        mem := mem[curpage := Pasted(mem[curpage], pageoff, iovs[iovno][iovoff..iovoff + n])];
      }
    }

    /** The rest of the piece fits the page. */
    method CopyWhole()
      requires Consistent(P(), S()) && Ready(P(), S()) && pageoff + (|iovs[iovno]| - iovoff) <= lens[curpage]
      modifies this`mem, this`length, this`pageoff, this`iovno, this`iovoff
      ensures Consistent(P(), S()) && iovno == old(iovno) + 1 && pageoff == old(pageoff + |iovs[iovno]| - iovoff)
      ensures Rest(iovs, iovno, iovoff) == old(Rest(iovs, iovno, iovoff)[|iovs[iovno]| - iovoff..])
    {
      var n := |iovs[iovno]| - iovoff;
      CopyFits(P(), S(), n);
      WholeKeeps(P(), S(), n);
      ghost var t := S().(mem := Copy(P(), S(), n), length := length - n, pageoff := pageoff + n, iovno := iovno + 1, iovoff := 0);
      CopyPage(n);
      length := length - n;
      pageoff := pageoff + n;
      iovno, iovoff := iovno + 1, 0;
      assert S() == t;
    }

    /** Only what fills the page. */
    method CopyPart()
      requires Consistent(P(), S()) && Ready(P(), S()) && pageoff + (|iovs[iovno]| - iovoff) > lens[curpage]
      modifies this`mem, this`length, this`pageoff, this`iovoff
      ensures Consistent(P(), S()) && pageoff == lens[curpage]
    {
      var n := lens[curpage] - pageoff;
      CopyFits(P(), S(), n);
      PartKeeps(P(), S(), n);
      ghost var t := S().(mem := Copy(P(), S(), n), length := length - n, pageoff := pageoff + n, iovoff := iovoff + n);
      CopyPage(n);
      length := length - n;
      iovoff := iovoff + n;
      pageoff := lens[curpage];
      assert S() == t;
    }

    /** One turn of the copy: the page fills up, or the piece is used up. */
    method CopyNext()
      requires Valid() && Ready(P(), S())
      modifies this`mem, this`length, this`pageoff, this`iovno, this`iovoff
      ensures Valid()
      ensures pageoff > old(pageoff) || (pageoff == old(pageoff) && iovno == old(iovno) + 1 && Dry() == old(Dry()))
    {
      if pageoff + (|iovs[iovno]| - iovoff) <= lens[curpage] {
        CopyWhole();
      } else {
        CopyPart();
      }
    }

    method NextPage()
      requires Valid() && curpage < |lens| && pageoff == lens[curpage]
      modifies this`curpage, this`pageoff
      ensures Valid() && curpage == old(curpage) + 1 && pageoff == 0
    {
      curpage, pageoff := curpage + 1, 0;
    }

    /** A failed read is the last, everything before it has been copied, and its result is the loop's. */
    ghost predicate Ended(result: int)
      reads this`calls, this`iovs, this`iovno
    {
      result != 0 ==> calls > 0 && iovno == |iovs| && result == ReadResult(rx, calls - 1, reply)
    }

    /** Reading more if there is nothing left to copy. */
    method Refill() returns (result: int)
      requires Valid()
      modifies this`iovs, this`iovno, this`iovoff, this`calls, this`stream
      ensures Valid() && (result == 0 ==> iovno < |iovs|) && Ended(result)
      ensures old(iovno < |iovs|) ==> result == 0 && S() == old(S())
      ensures old(iovno == |iovs|) ==> old(Dry()) && (result == 0 ==> !Dry())
    {
      result := 0;
      if iovno >= |iovs| {
        var p := rx(calls, length);
        if p.Failed? || |Flatten(p.iovs)| == 0 {
          result := ReadNothing();
        } else {
          Arrive(p.iovs);
        }
      }
    }

    /** One turn of the loop: either it ends, or it gets on. */
    method Turn() returns (result: int, done: bool)
      requires Valid() && curpage < |lens| && pageoff < lens[curpage]
      modifies this`mem, this`length, this`pageoff, this`iovs, this`iovno, this`iovoff, this`calls, this`stream
      ensures Valid() && (!done ==> result == 0) && (done && result == 0 ==> length == 0) && Ended(result)
      ensures !done ==>
                || pageoff > old(pageoff)
                || (pageoff == old(pageoff) && old(Dry()) && !Dry())
                || (pageoff == old(pageoff) && old(Dry()) == Dry() && |iovs| - iovno < old(|iovs| - iovno))
    {
      result := Refill();
      done := true;
      if result == 0 {
        CopyNext();
        done := length == 0 && iovno >= |iovs|;
      }
    }

    /** Copying into the current page until it is full, the reply is complete or a read fails. */
    method FillPage() returns (result: int, done: bool)
      requires Valid() && curpage < |lens|
      modifies this`mem, this`length, this`pageoff, this`iovs, this`iovno, this`iovoff, this`calls, this`stream
      ensures Valid() && Ended(result)
      ensures !done ==> result == 0 && pageoff == lens[curpage]
      ensures done && result == 0 ==> length == 0
    {
      result, done := 0, false;
      while pageoff < lens[curpage] && !done
        invariant Valid() && (!done ==> result == 0) && (done && result == 0 ==> length == 0) && Ended(result)
        decreases !done, lens[curpage] - pageoff, Dry(), |iovs| - iovno
      {
        result, done := Turn();
      }
    }

    /** The copy loop: the wanted pages hold what the reads delivered, byte for byte: all of it
        up to the reply's end or their own, or all that came before the read that failed. */
    method CopyReply() returns (result: int)
      requires Valid() && curpage == pageoff == 0
      modifies this
      ensures Ended(result) && curpage <= |lens|
      ensures Filled(was, mem, lens, present, Reads(rx, calls, reply), Copied(lens, curpage, pageoff))
      ensures result == 0 ==> Copied(lens, curpage, pageoff) == if reply <= Start(lens, |lens|) then reply else Start(lens, |lens|)
      ensures result != 0 ==> Copied(lens, curpage, pageoff) == |Reads(rx, calls, reply)|
    {
      result := 0;
      var done := false;
      while curpage < |lens| && !done
        invariant Valid() && (!done ==> result == 0 && pageoff == 0) && (done && result == 0 ==> length == 0) && Ended(result)
        decreases !done, |lens| - curpage
      {
        result, done := FillPage();
        if !done {
          NextPage();
        }
      }
      if result == 0 {
        Bound(lens, curpage);
      } else {
        AllCopied(P(), S());
      }
    }
  }

  lemma {:induction false} Bound(lens: seq<nat>, k: nat)
    requires k <= |lens|
    ensures Start(lens, k) <= Start(lens, |lens|)
    ensures k < |lens| ==> Start(lens, k) + lens[k] <= Start(lens, |lens|)
  {
    if k < |lens| {
      StartGrows(lens, k, |lens|);
    }
  }

  /** The pieces of a read together are no more than was asked for. */
  ghost predicate Sound(rx: (nat, nat) -> Piece)
  {
    && (forall n, asked :: rx(n, asked).Data? ==> |Flatten(rx(n, asked).iovs)| <= asked)
    && (forall n, asked :: rx(n, asked).Failed? ==> rx(n, asked).code < 0)
  }

  /** The read has failed with the code, or delivered nothing, which is an I/O error. */
  predicate FailsWith(p: Piece, code: int)
  {
    if p.Failed? then code == p.code else Flatten(p.iovs) == [] && code == EIO
  }

  lemma {:induction false} ReadsWithin(rx: (nat, nat) -> Piece, n: nat, length: nat)
    requires Sound(rx)
    ensures |Reads(rx, n, length)| <= length
  {
    if n > 0 {
      ReadsWithin(rx, n - 1, length);
    }
  }

  /** A read that fails had asked for what is still missing. */
  lemma LastRead(rx: (nat, nat) -> Piece, n: nat, length: nat)
    requires Sound(rx) && ReadResult(rx, n, length) != 0
    ensures var copied := |Reads(rx, n + 1, length)|; copied <= length && FailsWith(rx(n, length - copied), ReadResult(rx, n, length))
  {
    ReadsWithin(rx, n, length);
    assert Reads(rx, n + 1, length) == Reads(rx, n, length);
  }

  /** The copy of a whole reply into the pages. */
  method FetchReply(lens: seq<nat>, present: seq<bool>, mem: seq<Bytes>, length: nat, rx: (nat, nat) -> Piece)
    returns (result: int, now: seq<Bytes>, calls: nat, ghost copied: nat)
    requires |lens| == |present| == |mem| && (forall k :: 0 <= k < |mem| ==> |mem[k]| == lens[k]) && Sound(rx)
    ensures Filled(mem, now, lens, present, Reads(rx, calls, length), copied)
    ensures result == 0 ==> copied == if length <= Start(lens, |lens|) then length else Start(lens, |lens|)
    ensures result != 0 ==> calls > 0 && result == ReadResult(rx, calls - 1, length) && copied == |Reads(rx, calls, length)|
  {
    var f := new Fetch(lens, present, mem, length, rx);
    result := f.CopyReply();
    now, calls, copied := f.mem, f.calls, Copied(lens, f.curpage, f.pageoff);
  }

  /** afs_NoCacheFetchProc for an ordinary server's reply: `got` bytes of its length word were
      read, and the length is not negative.  The pages end up with the bytes that the `calls`
      reads delivered, and nothing else. */
  method NoCacheFetchProc(lens: seq<nat>, present: seq<bool>, mem: seq<Bytes>, got: int, length: nat, size: int,
                          rx: (nat, nat) -> Piece)
    returns (result: int, now: seq<Bytes>, calls: nat, ghost copied: nat)
    requires |lens| == |present| == |mem| && (forall k :: 0 <= k < |mem| ==> |mem[k]| == lens[k]) && Sound(rx)
    ensures got != 4 || length > size ==> result == EIO && now == mem && calls == 0
    ensures Filled(mem, now, lens, present, Reads(rx, calls, length), copied)
    ensures result == 0 ==> copied == if length <= Start(lens, |lens|) then length else Start(lens, |lens|)
    ensures got == 4 && length <= size && result != 0 ==>
              calls > 0 && result == ReadResult(rx, calls - 1, length) && copied == |Reads(rx, calls, length)|
    ensures got == 4 && length <= size && result != 0 ==> copied <= length && FailsWith(rx(calls - 1, length - copied), result)
  {
    result, now, calls, copied := 0, mem, 0, 0;
    NothingFilled(mem, lens, present);
    if got != 4 || length > size {
      result := EIO;
    } else if length != 0 {
      result, now, calls, copied := FetchReply(lens, present, mem, length, rx);
      if result != 0 {
        LastRead(rx, calls - 1, length);
      }
    }
  }
}
