/** The list of open inodes as a cache (Inode_Open and Inode_Close, fs/inode.c:160-228).

    Repaired: the comparison of inode.c:166 is an assignment; `OpenAsWritten` keeps the text. The list is
    the sequence that `IntrusiveList` shows lib/list.c to be, a new inode going to its front. */
module InodeCache {
  import opened DiskModel
  import opened InodeTable

  // ---------------------------------------------------------------- the list as a value

  /** A listed inode: number and count. */
  datatype Slot = Slot(iNo: nat, iOpenCnts: nat)

  function SlotOf(slots: seq<Slot>, no: nat): (i: nat)
    ensures i <= |slots| && (i < |slots| ==> slots[i].iNo == no) && forall j :: 0 <= j < i ==> slots[j].iNo != no
  {
    if slots == [] || slots[0].iNo == no then 0 else SlotOf(slots[1..], no) + 1
  }

  /** Opens minus closes of a number. */
  function BalanceOf(balance: map<nat, nat>, no: nat): nat {
    if no in balance then balance[no] else 0
  }

  ghost predicate OnePerNumber(slots: seq<Slot>) {
    forall i, j :: 0 <= i < j < |slots| ==> slots[i].iNo != slots[j].iNo
  }

  ghost predicate CountsRight(slots: seq<Slot>, balance: map<nat, nat>) {
    forall i :: 0 <= i < |slots| ==> slots[i].iOpenCnts == BalanceOf(balance, slots[i].iNo) > 0
  }

  ghost predicate AllListed(slots: seq<Slot>, balance: map<nat, nat>) {
    forall no {:trigger BalanceOf(balance, no)} :: BalanceOf(balance, no) > 0 ==> SlotOf(slots, no) < |slots|
  }

  /** One copy for a number at most; it is listed exactly while opens exceed closes, and counts them. */
  ghost predicate Counted(slots: seq<Slot>, balance: map<nat, nat>) {
    OnePerNumber(slots) && CountsRight(slots, balance) && AllListed(slots, balance)
  }

  /** The list after opening a number: counted up where it is listed, else a new front. */
  function OpenAsMeant(slots: seq<Slot>, no: nat): seq<Slot> {
    var i := SlotOf(slots, no);
    if i < |slots| then slots[i := slots[i].(iOpenCnts := slots[i].iOpenCnts + 1)] else [Slot(no, 1)] + slots
  }

  /** The list after closing the inode at k: counted down, and off the list with the last one. */
  function CloseAsMeant(slots: seq<Slot>, k: nat): seq<Slot>
    requires k < |slots| && slots[k].iOpenCnts > 0
  {
    if slots[k].iOpenCnts == 1 then slots[..k] + slots[k + 1..]
    else slots[k := slots[k].(iOpenCnts := slots[k].iOpenCnts - 1)]
  }

  /** A number not yet listed goes to the front; else the order stays, and only its own count changes. */
  lemma OpenKeepsOrder(slots: seq<Slot>, no: nat, k: nat)
    requires k < |slots|
    ensures var t := OpenAsMeant(slots, no);
            if SlotOf(slots, no) == |slots| then |t| == |slots| + 1 && t[0] == Slot(no, 1) && t[k + 1] == slots[k]
            else |t| == |slots| && t[k] == if k == SlotOf(slots, no) then Slot(no, slots[k].iOpenCnts + 1) else slots[k]
  {
  }

  /** A count goes down by one; with the last the inode goes, and the others close up. */
  lemma CloseKeepsOrder(slots: seq<Slot>, k: nat, j: nat)
    requires k < |slots| && slots[k].iOpenCnts > 0 && j < |slots| && j != k
    ensures var t := CloseAsMeant(slots, k);
            if slots[k].iOpenCnts > 1 then |t| == |slots| && t[k] == Slot(slots[k].iNo, slots[k].iOpenCnts - 1)
                                           && t[j] == slots[j]
            else |t| == |slots| - 1 && t[if j < k then j else j - 1] == slots[j]
  {
  }

  lemma IsListed(slots: seq<Slot>, no: nat, i: nat)
    requires i < |slots| && slots[i].iNo == no
    ensures SlotOf(slots, no) < |slots|
  {
  }

  lemma OpenKeepsOne(slots: seq<Slot>, no: nat)
    requires OnePerNumber(slots)
    ensures OnePerNumber(OpenAsMeant(slots, no))
  {
    hide SlotOf;
  }

  lemma OpenKeepsCounted(slots: seq<Slot>, balance: map<nat, nat>, no: nat)
    requires Counted(slots, balance)
    ensures Counted(OpenAsMeant(slots, no), balance[no := BalanceOf(balance, no) + 1])
    ensures SlotOf(slots, no) < |slots| <==> BalanceOf(balance, no) > 0
  {
    hide SlotOf;
    var now, i := OpenAsMeant(slots, no), SlotOf(slots, no);
    var after := balance[no := BalanceOf(balance, no) + 1];
    OpenKeepsOne(slots, no);
    OpenListsIt(slots, no);
    forall n: nat
      ensures BalanceOf(after, n) == BalanceOf(balance, n) + if n == no then 1 else 0
      ensures BalanceOf(after, n) > 0 ==> SlotOf(now, n) < |now|
    {
      if n != no && BalanceOf(balance, n) > 0 { assert SlotOf(slots, n) < |slots|; }
    }
    forall j | 0 <= j < |now|
      ensures now[j].iOpenCnts == BalanceOf(after, now[j].iNo) > 0
    {
      assert i == |slots| && j > 0 ==> now[j] == slots[j - 1];
      assert i < |slots| && j != i ==> now[j] == slots[j];
    }
  }

  /** Where an entry of the list after a removal was before it. */
  lemma AfterRemoval(slots: seq<Slot>, k: nat, i: nat)
    requires k < |slots| && i < |slots| - 1
    ensures (slots[..k] + slots[k + 1..])[i] == slots[if i < k then i else i + 1]
  {
  }

  lemma OpensAreListed(slots: seq<Slot>, balance: map<nat, nat>, no: nat)
    requires Counted(slots, balance) && BalanceOf(balance, no) > 0
    ensures OnePerNumber(slots) && SlotOf(slots, no) < |slots|
    ensures slots[SlotOf(slots, no)].iNo == no && slots[SlotOf(slots, no)].iOpenCnts == BalanceOf(balance, no)
  {
  }

  lemma OpenListsIt(slots: seq<Slot>, no: nat)
    ensures var now := OpenAsMeant(slots, no);
            forall n :: SlotOf(now, n) < |now| <==> n == no || SlotOf(slots, n) < |slots|
  {
    var now, i := OpenAsMeant(slots, no), SlotOf(slots, no);
    forall n: nat
      ensures SlotOf(now, n) < |now| <==> n == no || SlotOf(slots, n) < |slots|
    {
      var j := SlotOf(slots, n);
      if n == no { IsListed(now, n, if i < |slots| then i else 0); }
      else if j < |slots| { IsListed(now, n, if i < |slots| then j else j + 1); }
    }
  }

  lemma CloseDelists(slots: seq<Slot>, k: nat)
    requires k < |slots| && OnePerNumber(slots) && slots[k].iOpenCnts > 0
    ensures var now := CloseAsMeant(slots, k);
            forall n :: SlotOf(now, n) < |now| <==>
              SlotOf(slots, n) < |slots| && (n == slots[k].iNo ==> slots[k].iOpenCnts > 1)
  {
    forall n: nat
      ensures var now := CloseAsMeant(slots, k);
              SlotOf(now, n) < |now| <==> SlotOf(slots, n) < |slots| && (n == slots[k].iNo ==> slots[k].iOpenCnts > 1)
    {
      if slots[k].iOpenCnts == 1 { RemovalDelists(slots, k, n); }
      else {
        var now := CloseAsMeant(slots, k);
        if SlotOf(now, n) < |now| { IsListed(slots, n, SlotOf(now, n)); }
        if SlotOf(slots, n) < |slots| { IsListed(now, n, SlotOf(slots, n)); }
      }
    }
  }

  lemma RemovalDelists(slots: seq<Slot>, k: nat, n: nat)
    requires k < |slots| && OnePerNumber(slots)
    ensures var now := slots[..k] + slots[k + 1..];
            SlotOf(now, n) < |now| <==> SlotOf(slots, n) < |slots| && n != slots[k].iNo
  {
    hide SlotOf;
    var now := slots[..k] + slots[k + 1..];
    var j, m := SlotOf(slots, n), SlotOf(now, n);
    if m < |now| {
      AfterRemoval(slots, k, m);
      IsListed(slots, n, if m < k then m else m + 1);
    }
    if j < |slots| && j != k {
      AfterRemoval(slots, k, if j < k then j else j - 1);
      IsListed(now, n, if j < k then j else j - 1);
    }
  }

  lemma CloseKeepsCounted(slots: seq<Slot>, balance: map<nat, nat>, k: nat)
    requires Counted(slots, balance) && k < |slots|
    ensures Counted(CloseAsMeant(slots, k), balance[slots[k].iNo := BalanceOf(balance, slots[k].iNo) - 1])
  {
    var no := slots[k].iNo;
    var after := balance[no := BalanceOf(balance, no) - 1];
    forall n: nat
      ensures BalanceOf(after, n) == BalanceOf(balance, n) - if n == no then 1 else 0
    {
    }
    if slots[k].iOpenCnts == 1 {
      RemovalKeepsCounted(slots, balance, k, after);
    } else {
      var now := CloseAsMeant(slots, k);
      forall n | BalanceOf(after, n) > 0
        ensures SlotOf(now, n) < |now|
      {
        assert BalanceOf(balance, n) > 0;
        IsListed(now, n, SlotOf(slots, n));
      }
    }
  }

  lemma RemovalKeepsCounted(slots: seq<Slot>, balance: map<nat, nat>, k: nat, after: map<nat, nat>)
    requires Counted(slots, balance) && k < |slots| && slots[k].iOpenCnts == 1
    requires forall n :: BalanceOf(after, n) == BalanceOf(balance, n) - if n == slots[k].iNo then 1 else 0
    ensures Counted(slots[..k] + slots[k + 1..], after)
  {
    hide SlotOf;
    var now := slots[..k] + slots[k + 1..];
    forall i | 0 <= i < |now|
      ensures now[i] == slots[if i < k then i else i + 1] && now[i].iNo != slots[k].iNo
    {
      AfterRemoval(slots, k, i);
    }
    forall n | BalanceOf(after, n) > 0
      ensures SlotOf(now, n) < |now|
    {
      OpensAreListed(slots, balance, n);
      var j := SlotOf(slots, n);
      IsListed(now, n, if j < k then j else j - 1);
    }
  }

  // ---------------------------------------------------------------- the list in memory

  class OpenInodes {
    const disk: Disk
    const base: nat
    var listed: seq<Slot>
    var copies: map<nat, Inode>
    ghost var balance: map<nat, nat>

    /** The listed numbers are the ones with a copy in memory. */
    ghost predicate Valid()
      reads this
    {
      Counted(listed, balance) && forall no :: no in copies <==> SlotOf(listed, no) < |listed|
    }

    constructor (d: Disk, b: nat)
      ensures Valid() && listed == [] && balance == map[] && disk == d && base == b
    {
      disk, base, listed, copies, balance := d, b, [], map[], map[];
    }

    /** The walk of inode.c:163-172. */
    method Search(no: nat) returns (i: nat)
      ensures i == SlotOf(listed, no)
    {
      i := 0;
      while i < |listed| && listed[i].iNo != no
        invariant 0 <= i <= |listed| && SlotOf(listed, no) == i + SlotOf(listed[i..], no)
      {
        assert listed[i..][1..] == listed[i + 1..];
        i := i + 1;
      }
    }

    /** Inode_Open: the shared copy if there is one, else a new copy of the record on the disk. */
    method Open(no: nat) returns (inode: Inode)
      requires Valid() && no < INODES
      requires Covers(disk.sectors, base, TABLE_SECTS) && base + TABLE_SECTS <= MAX_LBA
      modifies this
      ensures Valid() && balance == old(balance)[no := BalanceOf(old(balance), no) + 1]
      ensures listed == OpenAsMeant(old(listed), no) && no in copies && inode == copies[no]
      ensures copies == if BalanceOf(old(balance), no) > 0 then old(copies)
                        else old(copies)[no := InodeTable.Stored(disk.sectors, base, no)]
    {
      hide InodeTable.Stored, Covers, Counted, OnePerNumber, SlotOf;
      OpenKeepsCounted(listed, balance, no);
      OpenListsIt(listed, no);
      var i := Search(no);
      balance := balance[no := BalanceOf(balance, no) + 1];
      if i < |listed| {
        listed := listed[i := listed[i].(iOpenCnts := listed[i].iOpenCnts + 1)];
      } else {
        inode := InodeTable.Read(disk, base, no);
        listed := [Slot(no, 1)] + listed;
        copies := copies[no := inode];
      }
      inode := copies[no];
    }

    /** Inode_Close: with the last one the inode goes off the list, and its copy with it. */
    method Close(no: nat)
      requires Valid() && BalanceOf(balance, no) > 0
      modifies this
      ensures Valid() && balance == old(balance)[no := BalanceOf(old(balance), no) - 1]
      ensures copies == if BalanceOf(balance, no) == 0 then old(copies) - {no} else old(copies)
      ensures SlotOf(old(listed), no) < |old(listed)| && old(listed)[SlotOf(old(listed), no)].iOpenCnts > 0
      ensures listed == CloseAsMeant(old(listed), SlotOf(old(listed), no))
    {
      hide Counted, OnePerNumber, SlotOf;
      OpensAreListed(listed, balance, no);
      var k := Search(no);
      CloseKeepsCounted(listed, balance, k);
      CloseDelists(listed, k);
      balance := balance[no := BalanceOf(balance, no) - 1];
      if listed[k].iOpenCnts == 1 {
        listed := listed[..k] + listed[k + 1..];
        copies := copies - {no};
      } else {
        listed := listed[k := listed[k].(iOpenCnts := listed[k].iOpenCnts - 1)];
      }
    }
  }

  // ---------------------------------------------------------------- Inode_Open as written

  function Renumbered(slots: seq<Slot>, no: nat): (r: seq<Slot>)
    ensures |r| == |slots| && forall i :: 0 <= i < |r| ==> r[i] == slots[i].(iNo := no)
  {
    seq(|slots|, i requires 0 <= i < |slots| => slots[i].(iNo := no))
  }

  /** With an assignment for the comparison, the first listed inode gets the number and is handed out,
      unless the number is 0: then all get the number 0, and one more is put in front. */
  function OpenAsWritten(slots: seq<Slot>, no: nat): seq<Slot> {
    if slots != [] && no != 0 then slots[0 := Slot(no, slots[0].iOpenCnts + 1)]
    else [Slot(no, 1)] + Renumbered(slots, no)
  }

  /** It does what is meant exactly when nothing is listed, or the number is not 0 and listed first. */
  lemma OpenAsWrittenIsRightIff(slots: seq<Slot>, no: nat)
    requires OnePerNumber(slots)
    ensures OpenAsWritten(slots, no) == OpenAsMeant(slots, no)
            <==> slots == [] || (no != 0 && slots[0].iNo == no)
  {
    var i := SlotOf(slots, no);
    var meant, written := OpenAsMeant(slots, no), OpenAsWritten(slots, no);
    if slots != [] && no != 0 && i > 0 {
      assert |meant| != |written| || meant[0].iNo != no == written[0].iNo;
    } else if slots != [] && no == 0 {
      assert |meant| == |slots| || (meant[1] == slots[0] && written[1].iNo == no);
    }
  }

  /** Two different numbers opened one after the other share one inode in memory, as written. */
  lemma TwoFilesOneInode(a: nat, b: nat)
    requires a != b && b != 0
    ensures OpenAsWritten(OpenAsWritten([], a), b) == [Slot(b, 2)]
  {
    assert Renumbered([], a) == [];
  }
}
