/**
 The checkpoint store: a map keyed by "workload/checkpoint" that should behave like a map from
 workloads to their checkpoints.
 */
module Checkpoints {
  import opened Text

  datatype CheckpointResult = CheckpointResult(checkpointID: string, state: string, createdAt: int)

  type Flat = map<string, CheckpointResult>
  /** The intended store: one record per workload and checkpoint. */
  type Records = map<(string, string), CheckpointResult>

  function Key(workloadID: string, checkpointID: string): string { workloadID + "/" + checkpointID }

  /** A workload id the key can be split after. */
  predicate Plain(workloadID: string) { '/' !in workloadID }

  lemma KeyInjective(w: string, c: string, w': string, c': string)
    requires Plain(w) && Plain(w') && Key(w, c) == Key(w', c')
    ensures w == w' && c == c'
  {
    KeysCollideIff(w, c, w', c');
  }

  /** `w'` extends `w` past a '/'. */
  predicate PathUnder(w': string, w: string) {
    |w| < |w'| && w'[..|w|] == w && w'[|w|] == '/'
  }

  /** One pair is read as another when a '/' of its id is taken for the separator. */
  predicate Misread(w: string, c: string, w': string, c': string) {
    && |c'| < |c| && PathUnder(w', w)
    && c == w'[|w| + 1..] + "/" + c'
  }

  predicate Collide(w: string, c: string, w': string, c': string) {
    (w == w' && c == c') || Misread(w, c, w', c') || Misread(w', c', w, c)
  }

  /** Exactly when two pairs share a key: they are equal, or one workload id extends the other past a '/'. */
  lemma {:induction false} KeysCollideIff(w: string, c: string, w': string, c': string)
    ensures Key(w, c) == Key(w', c') <==> Collide(w, c, w', c')
  {
    if Key(w, c) == Key(w', c') {
      if |w| < |w'| {
        KeysEqualLonger(w, c, w', c');
      } else if |w'| < |w| {
        KeysEqualLonger(w', c', w, c);
      } else {
        var k := Key(w, c);
        assert w == k[..|w|] && w' == k[..|w|];
        assert c == k[|w| + 1..] && c' == k[|w| + 1..];
      }
    }
    if Misread(w, c, w', c') {
      MisreadKeys(w, c, w', c');
    }
    if Misread(w', c', w, c) {
      MisreadKeys(w', c', w, c);
    }
  }

  lemma {:induction false} KeysEqualLonger(w: string, c: string, w': string, c': string)
    requires Key(w, c) == Key(w', c') && |w| < |w'|
    ensures Misread(w, c, w', c')
  {
    var k, x := Key(w, c), w'[|w| + 1..];
    assert w' == k[..|w'|] && w == k[..|w|] && k[|w|] == '/';
    assert w' == w + "/" + x;
    assert c == k[|w| + 1..];
    assert k == w + "/" + x + "/" + c';
    assert k[|w| + 1..] == x + "/" + c';
  }

  lemma {:induction false} MisreadKeys(w: string, c: string, w': string, c': string)
    requires Misread(w, c, w', c')
    ensures Key(w, c) == Key(w', c')
  {
    var x := w'[|w| + 1..];
    assert w + "/" + (x + "/" + c') == w + "/" + x + "/" + c';
  }

  /** List's test of a key. */
  predicate HasPrefix(k: string, prefix: string) { |k| > |prefix| && k[..|prefix|] == prefix }

  /** When List's prefix test passes, whatever the ids: a '/' in either of them can let it. */
  lemma {:induction false} PrefixTestExact(w: string, w': string, c': string)
    ensures HasPrefix(Key(w', c'), w + "/") <==>
      || (w == w' && c' != "")
      || PathUnder(w', w)
      || (PathUnder(w, w') && HasPrefix(c', w[|w'| + 1..] + "/"))
  {
    var k, prefix := Key(w', c'), w + "/";
    if PathUnder(w', w) {
      assert k[..|prefix|] == w'[..|prefix|];
    }
    if HasPrefix(k, prefix) && |w'| < |w| {
      assert w' + "/" == k[..|prefix|][..|w'| + 1] == prefix[..|w'| + 1] == w[..|w'| + 1];
    }
    if HasPrefix(k, prefix) && |w| < |w'| {
      assert prefix == k[..|prefix|] == w'[..|prefix|];
    }
    if HasPrefix(k, prefix) && |w| == |w'| {
      assert w == prefix[..|w|] == k[..|prefix|][..|w|] == w';
    }
    if PathUnder(w, w') {
      var x := w[|w'| + 1..] + "/";
      assert prefix == w' + "/" + x;
      assert k[|w'| + 1..] == c';
      if HasPrefix(c', x) {
        assert k[..|prefix|] == w' + "/" + c'[..|x|];
      }
      if HasPrefix(k, prefix) {
        assert c'[..|x|] == k[..|prefix|][|w'| + 1..] == x;
      }
    }
  }

  /** List's prefix test picks out the keys of one workload, even when its id begins another's. */
  lemma PrefixTestIff(w: string, w': string, c': string)
    requires Plain(w) && Plain(w')
    ensures HasPrefix(Key(w', c'), w + "/") <==> w == w' && c' != ""
  {
    PrefixTestExact(w, w', c');
  }

  // ---------------------------------------------------------------------------------------
  // A sequence of saves

  datatype Saved = Saved(workloadID: string, result: CheckpointResult)

  /** An id is generated for a result that has none. */
  function Completed(result: CheckpointResult, nanos: nat, now: int): CheckpointResult {
    result.(checkpointID := if result.checkpointID == "" then "ckpt-" + Decimal(nanos) else result.checkpointID,
            createdAt := now)
  }

  function FlatAfter(saves: seq<Saved>): Flat {
    if saves == [] then map[] else
    var s := saves[|saves| - 1];
    FlatAfter(saves[..|saves| - 1])[Key(s.workloadID, s.result.checkpointID) := s.result]
  }

  function RecordsAfter(saves: seq<Saved>): Records {
    if saves == [] then map[] else
    var s := saves[|saves| - 1];
    RecordsAfter(saves[..|saves| - 1])[(s.workloadID, s.result.checkpointID) := s.result]
  }

  predicate PlainSaves(saves: seq<Saved>) {
    forall s <- saves :: Plain(s.workloadID)
  }

  predicate Identified(saves: seq<Saved>) {
    forall s <- saves :: s.result.checkpointID != ""
  }

  function KeyOf(p: (string, string)): string { Key(p.0, p.1) }

  /** Records are stored under their own non-empty id, for plain workloads. */
  predicate WellKeyed(m: Records) {
    forall p <- m :: Plain(p.0) && p.1 != "" && m[p].checkpointID == p.1
  }

  /** The flat map holds exactly the intended records under their keys. */
  predicate Represents(f: Flat, m: Records) {
    && (forall p <- m :: KeyOf(p) in f && f[KeyOf(p)] == m[p])
    && (forall k <- f :: exists p <- m :: KeyOf(p) == k)
  }

  /** No other record of a well-keyed map shares the key of a plain pair. */
  lemma {:induction false} KeyUnique(m: Records, w: string, c: string)
    requires WellKeyed(m) && Plain(w)
    ensures forall p <- m :: KeyOf(p) == KeyOf((w, c)) ==> p == (w, c)
  {
    forall p <- m | KeyOf(p) == KeyOf((w, c)) ensures p == (w, c) {
      KeyInjective(p.0, p.1, w, c);
    }
  }

  lemma {:induction false} SaveRepresents(f: Flat, m: Records, p0: (string, string), k0: string, r: CheckpointResult)
    requires WellKeyed(m) && Represents(f, m)
    requires Plain(p0.0) && p0.1 != "" && r.checkpointID == p0.1 && k0 == KeyOf(p0)
    ensures WellKeyed(m[p0 := r]) && Represents(f[k0 := r], m[p0 := r])
  {
    KeyUnique(m, p0.0, p0.1);
    var f', m' := f[k0 := r], m[p0 := r];
    forall p <- m' ensures KeyOf(p) in f' && f'[KeyOf(p)] == m'[p] {
      if p != p0 {
        assert p in m && KeyOf(p) != k0;
      }
    }
    forall k <- f' ensures exists p <- m' :: KeyOf(p) == k {
      if k == k0 {
        assert p0 in m';
      } else {
        var p :| p in m && KeyOf(p) == k;
        assert p in m';
      }
    }
  }

  /** The flat store is the intended one, after any sequence of saves of plain workloads. */
  lemma {:induction false} StoreRefinesRecords(saves: seq<Saved>)
    requires PlainSaves(saves) && Identified(saves)
    ensures WellKeyed(RecordsAfter(saves)) && Represents(FlatAfter(saves), RecordsAfter(saves))
  {
    if saves != [] {
      var n := |saves| - 1;
      StoreRefinesRecords(saves[..n]);
      var s := saves[n];
      SaveRepresents(FlatAfter(saves[..n]), RecordsAfter(saves[..n]), (s.workloadID, s.result.checkpointID),
                     Key(s.workloadID, s.result.checkpointID), s.result);
    }
  }

  /** A flat lookup is the intended lookup. */
  lemma {:induction false} LookupAgrees(f: Flat, m: Records, w: string, c: string)
    requires WellKeyed(m) && Represents(f, m) && Plain(w)
    ensures Key(w, c) in f <==> (w, c) in m
    ensures (w, c) in m ==> f[Key(w, c)] == m[(w, c)]
  {
    KeyUnique(m, w, c);
    assert Key(w, c) == KeyOf((w, c));
  }

  /** The last save that shares a key with this pair, if any. */
  function Latest(saves: seq<Saved>, w: string, c: string): Option<CheckpointResult> {
    if saves == [] then None else
    var s := saves[|saves| - 1];
    if Collide(s.workloadID, s.result.checkpointID, w, c) then Some(s.result) else Latest(saves[..|saves| - 1], w, c)
  }

  /** What Get finds after any saves at all, with or without a '/' in an id. */
  lemma {:induction false} LookupIsLatest(saves: seq<Saved>, w: string, c: string)
    ensures Key(w, c) in FlatAfter(saves) <==> Latest(saves, w, c).Some?
    ensures Key(w, c) in FlatAfter(saves) ==> FlatAfter(saves)[Key(w, c)] == Latest(saves, w, c).value
  {
    if saves != [] {
      var n := |saves| - 1;
      LookupIsLatest(saves[..n], w, c);
      KeysCollideIff(saves[n].workloadID, saves[n].result.checkpointID, w, c);
    }
  }

  /** By position: the last save whose pair, spelled out with a slash between, reads the same. */
  lemma {:induction false} LatestMeaning(saves: seq<Saved>, w: string, c: string) returns (i: int)
    ensures Latest(saves, w, c).Some? ==>
      0 <= i < |saves| && Latest(saves, w, c).value == saves[i].result
    ensures Latest(saves, w, c).None? ==> i == -1
    ensures i >= 0 ==> saves[i].workloadID + "/" + saves[i].result.checkpointID == w + "/" + c
    ensures forall j :: i < j < |saves| ==>
      saves[j].workloadID + "/" + saves[j].result.checkpointID != w + "/" + c
  {
    if saves == [] {
      i := -1;
    } else {
      var n := |saves| - 1;
      KeysCollideIff(saves[n].workloadID, saves[n].result.checkpointID, w, c);
      if Key(saves[n].workloadID, saves[n].result.checkpointID) == Key(w, c) {
        i := n;
      } else {
        i := LatestMeaning(saves[..n], w, c);
      }
    }
  }

  /** Generated ids differ when the clock does, and are told from one another by their number alone. */
  lemma GeneratedIDsInjective(result: CheckpointResult, n: nat, m: nat, now: int)
    requires result.checkpointID == ""
    requires Completed(result, n, now).checkpointID == Completed(result, m, now).checkpointID
    ensures n == m
  {
    assert ("ckpt-" + Decimal(n))[5..] == Decimal(n) && ("ckpt-" + Decimal(m))[5..] == Decimal(m);
    DecimalInjective(n, m);
  }

  // ---------------------------------------------------------------------------------------
  // Listing

  /** The listed keys, each once, and the records under them. */
  ghost predicate Lists(out: seq<CheckpointResult>, keys: seq<string>, f: Flat, prefix: string) {
    && |out| == |keys|
    && (forall i :: 0 <= i < |keys| ==> keys[i] in f && HasPrefix(keys[i], prefix) && out[i] == f[keys[i]])
    && (forall k <- f :: HasPrefix(k, prefix) ==> k in keys)
    && (forall i, j :: 0 <= i < j < |keys| ==> keys[i] != keys[j])
  }

  /** In keys that begin with the prefix and go on: each has its record listed, and there are no others. */
  lemma {:induction false} ListsMeaning(out: seq<CheckpointResult>, keys: seq<string>, f: Flat, prefix: string)
    requires Lists(out, keys, f, prefix)
    ensures forall k <- f | prefix <= k && |k| > |prefix| :: f[k] in out
    ensures forall i | 0 <= i < |out| ::
      keys[i] in f && prefix <= keys[i] && |keys[i]| > |prefix| && f[keys[i]] == out[i]
    ensures |out| == |(set k <- f | prefix <= k && |k| > |prefix|)|
  {
    forall k <- f | prefix <= k && |k| > |prefix| ensures f[k] in out {
      var i :| 0 <= i < |keys| && keys[i] == k;
      assert out[i] == f[k];
    }
    DistinctSize(keys);
    assert (set k <- keys) == set k <- f | prefix <= k && |k| > |prefix|;
  }

  lemma {:induction false} DistinctSize(keys: seq<string>)
    requires forall i, j :: 0 <= i < j < |keys| ==> keys[i] != keys[j]
    ensures |(set k <- keys)| == |keys|
  {
    if keys != [] {
      var n := |keys| - 1;
      DistinctSize(keys[..n]);
      assert (set k <- keys) == (set k <- keys[..n]) + {keys[n]};
    }
  }

  /** `out` is the workload's records, each once, and nothing else. */
  ghost predicate ListsWorkload(out: seq<CheckpointResult>, m: Records, w: string) {
    && (forall r <- out :: (w, r.checkpointID) in m && r == m[(w, r.checkpointID)])
    && (forall p <- m :: p.0 == w ==> m[p] in out)
    && (forall i, j :: 0 <= i < j < |out| ==> out[i].checkpointID != out[j].checkpointID)
  }

  /** For plain workloads the listed keys are the workload's own. */
  lemma {:induction false} ListedAreOwn(f: Flat, m: Records, w: string, k: string)
    requires WellKeyed(m) && Represents(f, m) && Plain(w) && k in f && HasPrefix(k, w + "/")
    ensures (w, f[k].checkpointID) in m && f[k] == m[(w, f[k].checkpointID)] && k == Key(w, f[k].checkpointID)
  {
    var p :| p in m && KeyOf(p) == k;
    PrefixTestIff(w, p.0, p.1);
    assert p == (w, m[p].checkpointID);
  }

  lemma {:induction false} ListMeaning(out: seq<CheckpointResult>, keys: seq<string>, f: Flat, m: Records, w: string)
    requires WellKeyed(m) && Represents(f, m) && Plain(w) && Lists(out, keys, f, w + "/")
    ensures ListsWorkload(out, m, w)
  {
    forall i | 0 <= i < |out|
      ensures (w, out[i].checkpointID) in m && out[i] == m[(w, out[i].checkpointID)]
      ensures keys[i] == Key(w, out[i].checkpointID)
    {
      ListedAreOwn(f, m, w, keys[i]);
    }
    forall p <- m | p.0 == w ensures m[p] in out {
      PrefixTestIff(w, w, p.1);
      assert KeyOf(p) in keys;
      var i :| 0 <= i < |keys| && keys[i] == KeyOf(p);
      assert out[i] == m[p];
    }
  }

  // ---------------------------------------------------------------------------------------
  // The store

  class Store {
    var records: map<string, CheckpointResult>
    ghost var saves: seq<Saved>

    ghost predicate Valid()
      reads this
    {
      records == FlatAfter(saves) && Identified(saves)
    }

    constructor ()
      ensures Valid() && saves == []
    {
      records, saves := map[], [];
    }

    method Save(workloadID: string, result: CheckpointResult, nanos: nat, now: int) returns (saved: CheckpointResult)
      requires Valid()
      modifies this
      ensures Valid() && saved == Completed(result, nanos, now)
      ensures saves == old(saves) + [Saved(workloadID, saved)]
      ensures saved.checkpointID == if result.checkpointID != "" then result.checkpointID else "ckpt-" + Decimal(nanos)
      ensures saved.createdAt == now && saved.state == result.state
      ensures records == old(records)[workloadID + "/" + saved.checkpointID := saved]
    {
      saved := result;
      if saved.checkpointID == "" {
        saved := saved.(checkpointID := "ckpt-" + Decimal(nanos));
      }
      saved := saved.(createdAt := now);
      records := records[Key(workloadID, saved.checkpointID) := saved];
      saves := saves + [Saved(workloadID, saved)];
      assert saves[..|saves| - 1] == old(saves);
    }

    method Get(workloadID: string, checkpointID: string) returns (result: Option<CheckpointResult>)
      requires Valid()
      ensures result == Latest(saves, workloadID, checkpointID)
      ensures var k := workloadID + "/" + checkpointID;
        result == if k in records then Some(records[k]) else None
      ensures PlainSaves(saves) && Plain(workloadID) ==>
        var m := RecordsAfter(saves);
        result == if (workloadID, checkpointID) in m then Some(m[(workloadID, checkpointID)]) else None
    {
      var k := Key(workloadID, checkpointID);
      LookupIsLatest(saves, workloadID, checkpointID);
      if PlainSaves(saves) && Plain(workloadID) {
        StoreRefinesRecords(saves);
        LookupAgrees(records, RecordsAfter(saves), workloadID, checkpointID);
      }
      result := if k in records then Some(records[k]) else None;
    }

    /** Every record whose key has the prefix, each once; for plain workloads, exactly the workload's own. */
    method List(workloadID: string) returns (out: seq<CheckpointResult>)
      requires Valid()
      ensures exists keys :: Lists(out, keys, FlatAfter(saves), workloadID + "/")
      ensures forall k <- records | workloadID + "/" <= k && |k| > |workloadID| + 1 :: records[k] in out
      ensures |out| == |(set k <- records | workloadID + "/" <= k && |k| > |workloadID| + 1)|
      ensures PlainSaves(saves) && Plain(workloadID) ==> ListsWorkload(out, RecordsAfter(saves), workloadID)
    {
      out := [];
      var prefix := workloadID + "/";
      var todo := records.Keys;
      ghost var keys: seq<string> := [];
      while todo != {}
        invariant todo <= records.Keys
        invariant Lists(out, keys, records - todo, prefix)
      {
        var k :| k in todo;
        if |k| > |prefix| && k[..|prefix|] == prefix {
          out := out + [records[k]];
          keys := keys + [k];
        }
        todo := todo - {k};
      }
      assert records - {} == records;
      ListsMeaning(out, keys, records, prefix);
      if PlainSaves(saves) && Plain(workloadID) {
        StoreRefinesRecords(saves);
        ListMeaning(out, keys, records, RecordsAfter(saves), workloadID);
      }
    }
  }
}
