/**
 * One process between two lock operations of PipeCall: the helpers of `Pipe` on its descriptor
 * table and list, the child's path from fork to execvp, and the read and write loops.
 */
module PipeProcess {
  import opened Bytes
  import opened Scripts
  import opened Seqs
  import P = Pipes

  /** std::find: the first position of fd, or the end. */
  function Find(list: seq<int>, fd: int): (i: nat)
    ensures i <= |list| && (i < |list| <==> fd in list)
  {
    if list == [] || list[0] == fd then 0 else 1 + Find(list[1..], fd)
  }

  lemma {:induction false} EraseAtFind(list: seq<int>, fd: int)
    requires fd in list
    ensures P.Erase(list, fd) == list[..Find(list, fd)] + list[Find(list, fd) + 1..]
  {
    if list[0] != fd {
      assert fd in list[1..];
      EraseAtFind(list[1..], fd);
    }
  }

  class Process {
    var table: P.Table
    var list: seq<int>

    constructor (table: P.Table, list: seq<int>)
      ensures this.table == table && this.list == list
    {
      this.table, this.list := table, list;
    }

    /** Pipe::Create with the numbers the kernel chose, or its failure. */
    method Create(fds: Option<(int, int)>, call: P.CallId, j: nat) returns (ok: bool, slots: (int, int))
      requires fds.Some? ==> fds.value.0 != fds.value.1 && fds.value.0 !in table && fds.value.1 !in table
      modifies this
      ensures ok == fds.Some?
      ensures !ok ==> table == old(table) && list == old(list) && slots == (-1, -1)
      ensures ok ==>
                && slots == fds.value
                && table == old(table)[slots.0 := P.Pipe(call, 2 * j)][slots.1 := P.Pipe(call, 2 * j + 1)]
                && list == P.ListAfter(old(list), P.Created(slots.0, slots.1))
    {
      ok, slots := fds.Some?, (-1, -1);
      if ok {
        slots := fds.value;
        table := table[slots.0 := P.Pipe(call, 2 * j)][slots.1 := P.Pipe(call, 2 * j + 1)];
        list := list + [slots.0];
        list := list + [slots.1];
      }
    }

    /** Pipe::Close. Erasing what `find` did not find would be undefined, hence the precondition. */
    method Close(fd: int) returns (fileno: int)
      requires fd in list
      modifies this
      ensures fileno == -1
      ensures table == old(table) - {fd} && list == P.ListAfter(old(list), P.Closed(fd))
    {
      table := table - {fd};
      var it := Find(list, fd);
      EraseAtFind(list, fd);
      list := list[..it] + list[it + 1..];
      fileno := -1;
    }

    /** Pipe::CloseAll. */
    method CloseAll()
      modifies this
      ensures table == old(table) - (set fd | fd in old(list)) && list == []
    {
      for i := 0 to |list|
        invariant list == old(list)
        invariant table == old(table) - (set fd | fd in list[..i])
      {
        assert list[..i + 1] == list[..i] + [list[i]];
        table := table - {list[i]};
      }
      assert list[..|list|] == list;
      list := [];
    }

    method Dup2(from: int, to: int)
      requires from in table
      modifies this`table
      ensures table == old(table)[to := old(table)[from]]
    {
      table := table[to := table[from]];
    }

    /** The child branch: redirect, close the own four ends, close all that is left in the list. */
    method ChildUntilExec(slots: seq<int>)
      requires |slots| == 4 && P.NoDup(slots) && P.NoDup(list)
      requires forall k :: 0 <= k < 4 ==> slots[k] in list && slots[k] in table
      modifies this
      ensures table == P.ExecTable(old(table), old(list), slots) && list == []
    {
      Dup2(slots[0], 0);
      Dup2(slots[3], 1);
      Dup2(1, 2);
      assert table == P.Redirected(old(table), slots);
      CloseOwn(slots[0]);
      CloseOwn(slots[1]);
      CloseOwn(slots[2]);
      CloseOwn(slots[3]);
      ghost var rest := list;
      CloseAll();
      ClosedAll(P.Redirected(old(table), slots), old(list), slots, rest);
    }

    /** Close, seen as a set operation on a list without duplicates. */
    method CloseOwn(fd: int)
      requires fd in list && P.NoDup(list)
      modifies this
      ensures table == old(table) - {fd} && P.NoDup(list)
      ensures forall x :: x in list <==> x in old(list) && x != fd
    {
      P.EraseRemoves(list, fd);
      var _ := Close(fd);
    }
  }

  lemma ClosedAll(t: P.Table, list: seq<int>, slots: seq<int>, rest: seq<int>)
    requires |slots| == 4 && forall k :: 0 <= k < 4 ==> slots[k] in list
    requires forall x :: x in rest <==> x in list && x !in {slots[0], slots[1], slots[2], slots[3]}
    ensures t - {slots[0]} - {slots[1]} - {slots[2]} - {slots[3]} - (set x | x in rest)
         == t - (set x | x in list)
  {
    var gone := {slots[0]} + {slots[1]} + {slots[2]} + {slots[3]} + (set x | x in rest);
    forall x ensures x in gone <==> x in list {
      assert slots[0] in list && slots[1] in list && slots[2] in list && slots[3] in list;
    }
    assert t - {slots[0]} - {slots[1]} - {slots[2]} - {slots[3]} - (set x | x in rest) == t - gone;
  }

  /** Every child of the protocol starts in a state that ChildUntilExec accepts. */
  lemma ForkedChildReady(s: P.State, c: P.CallId)
    requires P.Inv(s) && c in s.children && s.children[c].Pre?
    ensures var ch := s.children[c];
            && |ch.slots| == 4 && P.NoDup(ch.slots) && P.NoDup(ch.list)
            && forall k :: 0 <= k < 4 ==> ch.slots[k] in ch.list && ch.slots[k] in ch.table
  {
    assert P.ChildInv(s, c);
    var ch := s.children[c];
    forall k: nat | k < 4 ensures ch.slots[k] in ch.list && ch.table[ch.slots[k]] == P.Pipe(c, k) {
      assert P.IsPipe(ch.table, ch.slots[k]);
    }
  }

  /** The Write loop: the child gets what write() accepted until it returned 0 or failed. */
  method WriteAll(input: seq<byte>, script: seq<int>) returns (accepted: seq<byte>)
    ensures accepted == input[..Min(|input|, Offered(script))]
  {
    var total, i := 0, 0;
    assert script[0..] == script;
    while i < |script| && script[i] > 0 && total < |input|
      invariant 0 <= i <= |script| && 0 <= total <= |input|
      invariant total + Min(|input| - total, Offered(script[i..])) == Min(|input|, Offered(script))
    {
      assert script[i..][1..] == script[i + 1..];
      total := total + if script[i] < |input| - total then script[i] else |input| - total;
      i := i + 1;
    }
    accepted := input[..total];
  }

  /** Calls that never fail deliver the whole input within as many calls as it has bytes. */
  lemma WriteDelivers(input: seq<byte>, script: seq<int>)
    requires (forall i :: 0 <= i < |script| ==> script[i] > 0) && |script| >= |input|
    ensures input[..Min(|input|, Offered(script))] == input
  {
    OfferedGrows(script);
  }

  /** The Read loop: the output grows by everything up to the first empty or failed read. */
  method ReadAll(output: seq<byte>, chunks: seq<seq<byte>>) returns (result: seq<byte>, taken: nat)
    ensures taken <= |chunks| && (taken < |chunks| ==> chunks[taken] == [])
    ensures forall i :: 0 <= i < taken ==> chunks[i] != []
    ensures result == output + Concat(chunks[..taken])
  {
    result, taken := output, 0;
    while taken < |chunks| && chunks[taken] != []
      invariant 0 <= taken <= |chunks|
      invariant forall i :: 0 <= i < taken ==> chunks[i] != []
      invariant result == output + Concat(chunks[..taken])
    {
      assert chunks[..taken + 1] == chunks[..taken] + [chunks[taken]];
      ConcatSnoc(chunks[..taken], chunks[taken]);
      result := result + chunks[taken];
      taken := taken + 1;
    }
  }
}
