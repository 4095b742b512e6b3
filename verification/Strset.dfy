/** The string section of a BTF under construction: NUL-terminated strings, each distinct one stored once. */
module Strsets {
  import opened Ints
  import opened Errno

  predicate NoNul(s: seq<u8>) { forall i :: 0 <= i < |s| ==> s[i] != 0 }

  /** The C string that starts at an offset. */
  function Text(data: seq<u8>, off: nat): seq<u8>
    decreases |data| - off
  {
    if off >= |data| || data[off] == 0 then [] else [data[off]] + Text(data, off + 1)
  }

  predicate Terminated(data: seq<u8>) { data == [] || data[|data| - 1] == 0 }

  /** The string s, with its NUL, stands at off. */
  predicate StandsAt(data: seq<u8>, off: nat, s: seq<u8>) {
    off + |s| < |data| && data[off..off + |s|] == s && data[off + |s|] == 0
  }

  lemma {:induction false} StandingText(data: seq<u8>, off: nat, s: seq<u8>)
    requires StandsAt(data, off, s) && NoNul(s)
    ensures Text(data, off) == s
    decreases |s|
  {
    if s != [] {
      var d := data[off..off + |s|];
      assert d[0] == s[0] && d[1..] == data[off + 1..off + 1 + |s[1..]|];
      StandingText(data, off + 1, s[1..]);
    }
  }

  lemma {:induction false} TextStands(data: seq<u8>, off: nat)
    requires Terminated(data) && off < |data|
    ensures NoNul(Text(data, off)) && StandsAt(data, off, Text(data, off))
    decreases |data| - off
  {
    if data[off] != 0 {
      TextStands(data, off + 1);
      var s := Text(data, off + 1);
      assert data[off..off + 1 + |s|] == [data[off]] + data[off + 1..off + 1 + |s|];
    }
  }

  /** Adding strings at the end leaves the text at every earlier offset as it is. */
  lemma TextStable(data: seq<u8>, more: seq<u8>, off: nat)
    requires Terminated(data) && off < |data|
    ensures Text(data + more, off) == Text(data, off)
  {
    var s := Text(data, off);
    TextStands(data, off);
    assert (data + more)[off..off + |s|] == data[off..off + |s|];
    StandingText(data + more, off, s);
  }

  /** Every known string stands where the index says. */
  ghost predicate GoodIndex(index: map<seq<u8>, nat>, data: seq<u8>) {
    forall s {:trigger StandsAt(data, index[s], s)} :: s in index ==> NoNul(s) && StandsAt(data, index[s], s)
  }

  lemma GoodIndexGrows(index: map<seq<u8>, nat>, data: seq<u8>, s: seq<u8>)
    requires GoodIndex(index, data) && NoNul(s)
    ensures GoodIndex(index[s := |data|], data + s + [0]) && StandsAt(data + s + [0], |data|, s)
  {
    var data', index' := data + s + [0], index[s := |data|];
    forall t | t in index' ensures NoNul(t) && StandsAt(data', index'[t], t) {
      assert t != s ==> StandsAt(data, index[t], t);
      if t != s { assert data'[index[t]..index[t] + |t|] == data[index[t]..index[t] + |t|]; }
    }
  }

  /** What a string set holds: its data, and where each known string stands. */
  datatype StrTable = StrTable(data: seq<u8>, index: map<seq<u8>, nat>) {
    /** The table with one more string at the end, unless it is known. */
    function With(s: seq<u8>): StrTable {
      if s in index then this else StrTable(data + s + [0], index[s := |data|])
    }
  }

  class Strset {
    const maxLen: nat
    var data: seq<u8>
    // where each known string stands, as the hash map of strset.c has it
    var index: map<seq<u8>, nat>

    ghost predicate Valid()
      reads this
    {
      Terminated(data) && GoodIndex(index, data)
    }

    ghost function Table(): StrTable
      reads this
    {
      StrTable(data, index)
    }

    /** strset__new: index the strings found in the initial data; of equal ones the first. */
    constructor (init: seq<u8>, maxLen: nat)
      requires Terminated(init)
      ensures Valid() && data == init && this.maxLen == maxLen
      ensures Indexes(index, init, Begins(init, 0))
    {
      this.maxLen, data, index := maxLen, init, map[];
      new;
      var off := 0;
      ghost var seen: set<nat> := {};
      while off < |init|
        invariant off <= |init| && GoodIndex(index, init) && data == init && this.maxLen == maxLen
        invariant Indexes(index, init, seen) && (forall o :: o in seen ==> o < off) && seen + Begins(init, off) == Begins(init, 0)
        decreases |init| - off
      {
        var s := Text(init, off);
        TextStands(init, off);
        BeginsStep(init, off);
        IndexStep(index, init, seen, off);
        if s !in index { index := index[s := off]; }
        seen := seen + {off};
        off := off + |s| + 1;
      }
    }

    /** strset__find_str. */
    method FindStr(s: seq<u8>) returns (r: int)
      requires Valid() && NoNul(s)
      ensures r == if |data| + |s| + 1 > maxLen then -ENOMEM else if s in index then index[s] else -ENOENT
      ensures r >= 0 ==> r < |data| && Text(data, r) == s
    {
      if |data| + |s| + 1 > maxLen { return -ENOMEM; }
      if s in index {
        assert StandsAt(data, index[s], s);
        StandingText(data, index[s], s);
        return index[s];
      }
      r := -ENOENT;
    }

    /** strset__add_str: the offset of a string that is there, or of the string put at the end. */
    method AddStr(s: seq<u8>) returns (r: int)
      requires Valid() && NoNul(s)
      modifies this
      ensures Valid() && old(data) <= data
      ensures r == if |old(data)| + |s| + 1 > maxLen then -ENOMEM else if s in old(index) then old(index)[s] else |old(data)|
      ensures r < 0 ==> data == old(data) && index == old(index)
      ensures r >= 0 ==> r < |data| && Text(data, r) == s && s in index && index[s] == r
      ensures r >= 0 ==> Table() == old(Table()).With(s)
    {
      if |data| + |s| + 1 > maxLen { return -ENOMEM; }
      r := |data|;
      if s in index {
        assert StandsAt(data, index[s], s);
        StandingText(data, index[s], s);
        return index[s];
      }
      GoodIndexGrows(index, data, s);
      data := data + s + [0];
      index := index[s := r];
      StandingText(data, r, s);
    }
  }

  /** The offsets, from one that starts a string, at which strings start. */
  ghost function Begins(data: seq<u8>, off: nat): set<nat>
    decreases |data| - off
  {
    if off >= |data| then {} else {off} + Begins(data, off + |Text(data, off)| + 1)
  }

  lemma BeginsStep(data: seq<u8>, off: nat)
    requires off < |data|
    ensures Begins(data, off) == {off} + Begins(data, off + |Text(data, off)| + 1)
  {
  }

  /** The strings indexed are those at the given offsets, each at the first of its places. */
  ghost predicate Indexes(index: map<seq<u8>, nat>, data: seq<u8>, seen: set<nat>) {
    (forall s {:trigger s in index} :: s in index ==> index[s] in seen && Text(data, index[s]) == s) &&
    (forall o {:trigger Text(data, o)} :: o in seen ==> Text(data, o) in index && index[Text(data, o)] <= o)
  }

  lemma IndexStep(index: map<seq<u8>, nat>, data: seq<u8>, seen: set<nat>, off: nat)
    requires Indexes(index, data, seen) && GoodIndex(index, data) && Terminated(data) && off < |data|
    requires forall o :: o in seen ==> o < off
    ensures var s := Text(data, off); GoodIndex(if s in index then index else index[s := off], data)
    ensures var s := Text(data, off); Indexes(if s in index then index else index[s := off], data, seen + {off})
  {
    var s := Text(data, off);
    var index' := if s in index then index else index[s := off];
    TextStands(data, off);
    forall t | t in index' ensures NoNul(t) && StandsAt(data, index'[t], t) {
      assert t in index ==> StandsAt(data, index[t], t);
    }
  }
}
