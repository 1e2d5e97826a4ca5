/** `Nginx::Request#headers`: the walk over nginx's segmented header list that
    flattens every used entry into an mruby hash, last write winning. */
module MrubyRequestHeaders {
  import opened CStrings
  import opened NgxHttp
  import opened MrubyRequest

  /** A converted header: its key and its value as mruby strings. */
  type Header = (seq<byte>, seq<byte>)

  /** `mrb_str_new_cstr` reads key and value up to their first zero byte, so both
      must hold one. */
  ghost predicate Terminated(e: TableElt)
  {
    0 in e.key.data && 0 in e.value.data
  }

  /** A part uses at most its capacity, and each used entry is a pair of C strings. */
  ghost predicate PartOk(p: ListPart)
  {
    && p.nelts <= |p.elts|
    && forall k :: 0 <= k < p.nelts ==> Terminated(p.elts[k])
  }

  /** Every part of the chain starting at `p` is well formed. */
  ghost predicate ChainOk(p: ListPart)
    decreases p
  {
    PartOk(p) && (p.next.Some? ==> ChainOk(p.next.value))
  }

  /** Every part after `p` holds at least one entry. The walk reads the first slot
      of a part it has just entered without looking at that part's `nelts`. */
  ghost predicate LaterPartsNonEmpty(p: ListPart)
    decreases p
  {
    p.next.Some? ==> p.next.value.nelts >= 1 && LaterPartsNonEmpty(p.next.value)
  }

  /** The used entries of the chain starting at `p`, part after part, slots
      `0 .. nelts - 1` of each. */
  ghost function Entries(p: ListPart): (es: seq<TableElt>)
    requires ChainOk(p)
    decreases p
  {
    p.elts[..p.nelts] + Rest(p)
  }

  /** The used entries of the parts after `p`. */
  ghost function Rest(p: ListPart): (es: seq<TableElt>)
    requires ChainOk(p)
    decreases p, 0
  {
    if p.next.Some? then Entries(p.next.value) else []
  }

  /** The parts of the chain starting at `p`, in link order. */
  ghost function Chain(p: ListPart): (ps: seq<ListPart>)
    ensures |ps| >= 1 && ps[0] == p
    decreases p
  {
    [p] + (if p.next.Some? then Chain(p.next.value) else [])
  }

  /** How many used entries the first `m` parts of the chain starting at `p` hold. */
  ghost function Offset(p: ListPart, m: nat): (n: nat)
    requires m <= |Chain(p)|
    decreases p
  {
    if m == 0 then 0
    else if p.next.Some? then p.nelts + Offset(p.next.value, m - 1)
    else p.nelts
  }

  /** A header entry converted the way the walk converts it: by C-string scan,
      whatever `len` records. */
  function Convert(e: TableElt): (h: Header)
  {
    (CStr(e.key.data), CStr(e.value.data))
  }

  /** The conversion looks at the bytes only: the lengths recorded for key and
      value play no part. */
  lemma ConvertIgnoresLen(e: TableElt, keyLen: nat, valueLen: nat)
    ensures Convert(TableElt(NgxStr(e.key.data, keyLen), NgxStr(e.value.data, valueLen))) == Convert(e)
    ensures Convert(e).0 <= e.key.data && 0 !in Convert(e).0
    ensures Convert(e).1 <= e.value.data && 0 !in Convert(e).1
  {
  }

  /** The converted entries, in order. */
  function Pairs(es: seq<TableElt>): (hs: seq<Header>)
    ensures |hs| == |es|
    ensures forall k :: 0 <= k < |es| ==> hs[k] == Convert(es[k])
  {
    if es == [] then [] else Pairs(es[..|es| - 1]) + [Convert(es[|es| - 1])]
  }

  /** The hash that `mrb_hash_set` builds when given the headers one by one. */
  function HashOf(hs: seq<Header>): (hash: map<seq<byte>, seq<byte>>)
  {
    if hs == [] then map[] else HashOf(hs[..|hs| - 1])[hs[|hs| - 1].0 := hs[|hs| - 1].1]
  }

  /** The used entries from slot `i` of `p` onward: the rest of `p`, then the
      parts after it. */
  ghost function Remaining(p: ListPart, i: nat): (es: seq<TableElt>)
    requires ChainOk(p) && i <= p.nelts
  {
    p.elts[i..p.nelts] + Rest(p)
  }

  /** `ngx_mrb_get_request_headers`. The cursor is the current part, its slot
      array `header` and the index `i`, which restarts at 0 in each new part. */
  method GetRequestHeaders(slot: RequestSlot) returns (hash: map<seq<byte>, seq<byte>>)
    requires slot.state != null
    requires ChainOk(slot.state.headersIn) && LaterPartsNonEmpty(slot.state.headersIn)
    ensures hash == HashOf(Pairs(Entries(slot.state.headersIn)))
  {
    var r := slot.GetRequest();
    ghost var all := Entries(r.headersIn);
    hash := map[];
    var part := r.headersIn;
    var header := part.elts;
    var i := 0;
    ghost var visited: seq<TableElt> := [];
    while true
      invariant ChainOk(part) && LaterPartsNonEmpty(part)
      invariant header == part.elts && i <= part.nelts
      invariant visited + Remaining(part, i) == all
      invariant hash == HashOf(Pairs(visited))
      decreases part, part.nelts - i
    {
      if i >= part.nelts {
        if part.next.None? {
          assert Remaining(part, i) == [];
          assert visited == all;
          break;
        }
        EnterNextPart(part);
        part := part.next.value;
        header := part.elts;
        i := 0;
      }
      var key := CStr(header[i].key.data);
      var value := CStr(header[i].value.data);
      VisitOne(part, i, visited);
      assert (key, value) == Convert(part.elts[i]);
      hash := hash[key := value];
      visited := visited + [header[i]];
      i := i + 1;
    }
  }

  /** Leaving an exhausted part: what remains is the whole of the next part. */
  lemma EnterNextPart(p: ListPart)
    requires ChainOk(p) && p.next.Some?
    ensures Remaining(p, p.nelts) == Remaining(p.next.value, 0)
  {
    var q := p.next.value;
    assert p.elts[p.nelts..p.nelts] + Rest(p) == Entries(q);
    assert q.elts[0..q.nelts] == q.elts[..q.nelts];
  }

  /** Visiting slot `i`: it moves from the remaining entries to the visited ones,
      and the hash gains its converted key and value. */
  lemma VisitOne(p: ListPart, i: nat, visited: seq<TableElt>)
    requires ChainOk(p) && i < p.nelts
    ensures visited + Remaining(p, i) == (visited + [p.elts[i]]) + Remaining(p, i + 1)
    ensures HashOf(Pairs(visited + [p.elts[i]]))
            == HashOf(Pairs(visited))[Convert(p.elts[i]).0 := Convert(p.elts[i]).1]
  {
    var e := p.elts[i];
    assert p.elts[i..p.nelts] == [e] + p.elts[i + 1..p.nelts];
    assert (visited + [e])[..|visited|] == visited;
    var hs := Pairs(visited) + [Convert(e)];
    assert Pairs(visited + [e]) == hs;
    assert hs[..|hs| - 1] == Pairs(visited);
  }

  /** The keys of the hash are exactly the keys of the headers. */
  lemma {:induction false} HashOfKeys(hs: seq<Header>)
    ensures HashOf(hs).Keys == set k | 0 <= k < |hs| :: hs[k].0
  {
    if hs != [] {
      var init := hs[..|hs| - 1];
      HashOfKeys(init);
      forall x | x in HashOf(hs).Keys
        ensures exists k :: 0 <= k < |hs| && hs[k].0 == x
      {
        if x != hs[|hs| - 1].0 {
          var k :| 0 <= k < |init| && init[k].0 == x;
          assert hs[k] == init[k];
        }
      }
      forall k | 0 <= k < |hs|
        ensures hs[k].0 in HashOf(hs)
      {
        if k < |hs| - 1 {
          assert init[k] == hs[k];
        }
      }
    }
  }

  /** A header with no later header of the same key decides that key's value. */
  lemma {:induction false} HashOfLastWins(hs: seq<Header>, k: nat)
    requires k < |hs|
    requires forall j :: k < j < |hs| ==> hs[j].0 != hs[k].0
    ensures hs[k].0 in HashOf(hs) && HashOf(hs)[hs[k].0] == hs[k].1
  {
    if k < |hs| - 1 {
      var init := hs[..|hs| - 1];
      assert init[k] == hs[k];
      HashOfLastWins(init, k);
    }
  }

  /** Conversely, every value in the hash comes from the last header with that key. */
  lemma HashOfFromLast(hs: seq<Header>, key: seq<byte>)
    requires key in HashOf(hs)
    ensures exists k :: 0 <= k < |hs| && hs[k].0 == key && HashOf(hs)[key] == hs[k].1
                        && forall j :: k < j < |hs| ==> hs[j].0 != key
  {
    HashOfKeys(hs);
    var k :| 0 <= k < |hs| && hs[k].0 == key;
    while exists j :: k < j < |hs| && hs[j].0 == key
      invariant 0 <= k < |hs| && hs[k].0 == key
      decreases |hs| - k
    {
      var later :| k < later < |hs| && hs[later].0 == key;
      k := later;
    }
    HashOfLastWins(hs, k);
  }

  /** A usage example: `[("A","1"), ("B","2"), ("A","3")]` gives
      `{"A" => "3", "B" => "2"}`. */
  lemma HashOfExample()
    ensures HashOf([([65], [49]), ([66], [50]), ([65], [51])]) == map[[65] := [51], [66] := [50]]
  {
    var hs: seq<Header> := [([65], [49]), ([66], [50]), ([65], [51])];
    assert hs[..2][..1] == [([65], [49])];
    assert hs[..2] == [([65], [49]), ([66], [50])];
    assert HashOf(hs[..2][..1]) == map[[65] := [49]];
    assert HashOf(hs[..2]) == map[[65] := [49], [66] := [50]];
    assert HashOf(hs) == map[[65] := [49], [66] := [50]][[65] := [51]];
  }

  /** The walk's order: slot `k` of the `m`-th part sits at position
      `Offset(p, m) + k`, and nothing else is there: the entries are exactly the
      used slots, each once, part after part. */
  lemma {:induction false} EntriesLayout(p: ListPart, m: nat, k: nat)
    requires ChainOk(p)
    requires m < |Chain(p)| && k < Chain(p)[m].nelts
    ensures PartOk(Chain(p)[m])
    ensures Offset(p, m) + k < Offset(p, m + 1)
    ensures |Entries(p)| == Offset(p, |Chain(p)|)
    ensures Offset(p, m) + k < |Entries(p)|
    ensures Entries(p)[Offset(p, m) + k] == Chain(p)[m].elts[k]
  {
    EntriesLength(p);
    OffsetMonotone(p, m + 1, |Chain(p)|);
    if m == 0 {
      assert Entries(p)[k] == p.elts[..p.nelts][k];
    } else {
      var q := p.next.value;
      assert Chain(p)[m] == Chain(q)[m - 1];
      EntriesLayout(q, m - 1, k);
      assert Entries(p)[p.nelts + Offset(q, m - 1) + k] == Entries(q)[Offset(q, m - 1) + k];
    }
  }

  /** Used counts only add up along the chain. */
  lemma {:induction false} OffsetMonotone(p: ListPart, m: nat, n: nat)
    requires m <= n <= |Chain(p)|
    ensures Offset(p, m) <= Offset(p, n)
  {
    if m > 0 && p.next.Some? {
      OffsetMonotone(p.next.value, m - 1, n - 1);
    }
  }

  /** The number of entries is the sum of the used counts. */
  lemma {:induction false} EntriesLength(p: ListPart)
    requires ChainOk(p)
    ensures |Entries(p)| == Offset(p, |Chain(p)|)
  {
    if p.next.Some? {
      EntriesLength(p.next.value);
    }
  }

  /** A list of two parts, the second holding the repeated key and some unused
      capacity: entries of both parts reach the hash, the unused slot does not,
      and the later "A" wins. */
  lemma TwoPartExample()
    ensures
      var a1 := TableElt(NgxStr([65, 0], 1), NgxStr([49, 0], 1));
      var b2 := TableElt(NgxStr([66, 0], 1), NgxStr([50, 0], 1));
      var a3 := TableElt(NgxStr([65, 0], 1), NgxStr([51, 0], 1));
      var unused := TableElt(NgxStr([67, 0], 1), NgxStr([52, 0], 1));
      var p := ListPart([a1, b2], 2, Some(ListPart([a3, unused], 1, None)));
      && ChainOk(p) && LaterPartsNonEmpty(p)
      && HashOf(Pairs(Entries(p))) == map[[65] := [51], [66] := [50]]
  {
    var a1 := TableElt(NgxStr([65, 0], 1), NgxStr([49, 0], 1));
    var b2 := TableElt(NgxStr([66, 0], 1), NgxStr([50, 0], 1));
    var a3 := TableElt(NgxStr([65, 0], 1), NgxStr([51, 0], 1));
    var unused := TableElt(NgxStr([67, 0], 1), NgxStr([52, 0], 1));
    var q := ListPart([a3, unused], 1, None);
    var p := ListPart([a1, b2], 2, Some(q));
    assert PartOk(q) by {
      assert 0 == a3.key.data[1] && 0 == a3.value.data[1];
    }
    assert PartOk(p) by {
      assert 0 == a1.key.data[1] && 0 == a1.value.data[1];
      assert 0 == b2.key.data[1] && 0 == b2.value.data[1];
    }
    assert Entries(q) == [a3];
    assert Entries(p) == [a1, b2, a3];
    assert Convert(a1) == ([65], [49]) by {
      var c65: seq<byte> := [65];
      CStrTerminated(c65);
      assert c65 + [0] == [65, 0];
      var c49: seq<byte> := [49];
      CStrTerminated(c49);
      assert c49 + [0] == [49, 0];
    }
    assert Convert(b2) == ([66], [50]) by {
      var c66: seq<byte> := [66];
      CStrTerminated(c66);
      assert c66 + [0] == [66, 0];
      var c50: seq<byte> := [50];
      CStrTerminated(c50);
      assert c50 + [0] == [50, 0];
    }
    assert Convert(a3) == ([65], [51]) by {
      var c65: seq<byte> := [65];
      CStrTerminated(c65);
      assert c65 + [0] == [65, 0];
      var c51: seq<byte> := [51];
      CStrTerminated(c51);
      assert c51 + [0] == [51, 0];
    }
    assert Pairs(Entries(p)) == [([65], [49]), ([66], [50]), ([65], [51])];
    HashOfExample();
  }
}
