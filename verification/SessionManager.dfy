/** The slab of session slots: keys, 16-bit sequence numbers and the free list threaded through the slots. */
module SessionManager {
  import opened Basics

  datatype Entry<S> = Entry(seqNo: nat, next: nat, session: Option<S>)

  const ROWS := 64
  const COLS := 1024
  const SEQS := 65536

  /** A 16-bit sequence number wraps around. */
  function NextSeq(n: nat): nat {
    (n + 1) % SEQS
  }

  ghost predicate Distinct(keys: seq<nat>) {
    forall i, j :: 0 <= i < j < |keys| ==> keys[i] != keys[j]
  }

  /** What follows the i-th key on a list. */
  function After(keys: seq<nat>, i: nat): nat {
    if i + 1 < |keys| then keys[i + 1] else 0
  }

  /** Slots of the keys from n up, each followed by the next. */
  function NewRow<S>(n: nat): (row: seq<Entry<S>>)
    ensures |row| == COLS
    ensures forall i :: 0 <= i < COLS ==> row[i] == Entry(0, if i == COLS - 1 then 0 else n + i + 1, None)
  {
    seq(COLS, i requires 0 <= i < COLS => Entry(0, if i == COLS - 1 then 0 else n + i + 1, None))
  }

  /** The slots as one table indexed by key, with what they stand for.
      - carved: how many rows have been allocated, from 1 up
      - free: the keys on the free list, in order
      - outstanding: the keys handed out and not removed; live: those with a session
      - generations: how often each key has been removed, its sequence number before wrapping
      - issued: every key ever handed out, with its generation then
      - unput: how many keys have been removed without a session having been put */
  datatype Slab<S> = Slab(carved: nat, table: seq<Entry<S>>, free: seq<nat>, outstanding: set<nat>, live: set<nat>,
                          generations: seq<nat>, issued: set<(nat, nat)>, unput: nat)
  {
    /** A key with a slot: those of row 0 never have one. */
    predicate IsKey(k: nat) {
      COLS <= k < |table|
    }

    /** The free list visits the keys of free, each once, and ends with 0. */
    ghost predicate Linked() {
      && Distinct(free)
      && (forall i :: 0 <= i < |free| ==> IsKey(free[i]))
      && (forall i {:trigger After(free, i)} :: 0 <= i < |free| ==> table[free[i]].next == After(free, i))
    }

    /** What the session count comes to. */
    function Count(): int {
      |live| - unput
    }

    function Head(): nat {
      if free == [] then 0 else free[0]
    }

    /** Every key is either free or outstanding. */
    ghost predicate Split() {
      && |free| + |outstanding| == |table| - COLS
      && (forall k :: k in outstanding ==> IsKey(k) && k !in free)
      && (forall k: nat :: IsKey(k) && k !in free ==> k in outstanding)
    }

    ghost predicate Numbered()
      requires |table| == |generations|
    {
      && (forall k: nat :: IsKey(k) ==> table[k].seqNo == generations[k] % SEQS)
      && (forall k: nat :: IsKey(k) ==> (table[k].session.Some? <==> k in live))
      && live <= outstanding
      && (forall p :: p in issued ==>
            IsKey(p.0) && (if p.0 in outstanding then p.1 <= generations[p.0] else p.1 < generations[p.0]))
    }

    ghost predicate Inv() {
      && carved < ROWS && |table| == |generations| == COLS * (carved + 1)
      && Linked() && Split() && Numbered()
    }

    /** The free list holds the new row and nothing else. */
    function Carve(): (s: Slab<S>)
      requires |table| == |generations|
    {
      var n := |table|;
      this.(carved := carved + 1, table := table + NewRow(|table|),
            free := seq(COLS, i requires 0 <= i < COLS => n + i),
            generations := generations + seq(COLS, i => 0))
    }

    function Issue(): Slab<S>
      requires free != [] && free[0] < |generations|
    {
      this.(free := free[1..], outstanding := outstanding + {free[0]},
            issued := issued + {(free[0], generations[free[0]])})
    }

    function Put(k: nat, session: S): Slab<S>
      requires k < |table|
    {
      this.(table := table[k := table[k].(session := Some(session))], live := live + {k})
    }

    function Remove(k: nat): Slab<S>
      requires k < |table| == |generations|
    {
      this.(table := table[k := Entry(NextSeq(table[k].seqNo), Head(), None)], free := [k] + free,
            outstanding := outstanding - {k}, live := live - {k}, generations := generations[k := generations[k] + 1],
            unput := unput + if k in live then 0 else 1)
    }

    /** The session a handle of key and sequence number is taken to mean. */
    function Resolve(k: nat, seqNo: nat): Option<S> {
      if IsKey(k) && table[k].seqNo == seqNo then table[k].session else None
    }
  }

  lemma CarveSplit<S>(s: Slab<S>)
    requires s.Inv() && s.free == [] && s.carved + 1 < ROWS
    ensures s.Carve().Split() && s.Carve().Linked()
  {
    var t := s.Carve();
    forall k: nat | |s.table| <= k < |t.table| ensures k in t.free {
      assert t.free[k - |s.table|] == k;
    }
  }

  lemma CarveNumbered<S>(s: Slab<S>)
    requires s.Inv() && s.free == [] && s.carved + 1 < ROWS
    ensures s.Carve().Numbered()
  {
  }

  lemma CarveKeeps<S>(s: Slab<S>)
    requires s.Inv() && s.free == [] && s.carved + 1 < ROWS
    ensures s.Carve().Inv() && s.Carve().Count() == s.Count() && |s.Carve().free| == COLS
    ensures s.Carve().Head() == |s.table|
  {
    CarveSplit(s);
    CarveNumbered(s);
  }

  /** The first key leaves the free list. */
  lemma HeadLeaves<S>(s: Slab<S>)
    requires s.Inv() && s.free != []
    ensures forall k :: k in s.free <==> k == s.free[0] || k in s.free[1..]
    ensures s.free[0] !in s.free[1..] && s.free[0] !in s.outstanding
  {
  }

  lemma IssueLinked<S>(s: Slab<S>)
    requires s.Inv() && s.free != []
    ensures s.Issue().Linked()
  {
    var t := s.Issue();
    forall i | 0 <= i < |t.free| ensures t.IsKey(t.free[i]) && t.table[t.free[i]].next == After(t.free, i) {
      assert t.free[i] == s.free[i + 1] && After(t.free, i) == After(s.free, i + 1);
    }
  }

  lemma IssueKeeps<S>(s: Slab<S>)
    requires s.Inv() && s.free != []
    ensures s.Issue().Inv() && s.Issue().Count() == s.Count() && |s.Issue().free| == |s.free| - 1
    ensures s.Issue().Head() == s.table[s.free[0]].next
    ensures (s.free[0], s.generations[s.free[0]]) !in s.issued
  {
    HeadLeaves(s);
    IssueLinked(s);
    assert s.table[s.free[0]].next == After(s.free, 0);
  }

  lemma PutKeeps<S>(s: Slab<S>, k: nat, session: S)
    requires s.Inv() && k in s.outstanding
    ensures s.Put(k, session).Inv()
    ensures k !in s.live ==> s.Put(k, session).Count() == s.Count() + 1
  {
  }

  lemma KeyReturns<S>(s: Slab<S>, k: nat)
    requires s.Inv() && k in s.outstanding
    ensures forall j :: j in s.Remove(k).free <==> j == k || j in s.free
    ensures s.Remove(k).Linked()
  {
    var t := s.Remove(k);
    forall i | 0 <= i < |t.free| ensures t.IsKey(t.free[i]) && t.table[t.free[i]].next == After(t.free, i) {
      if i > 0 {
        assert t.free[i] == s.free[i - 1] && After(t.free, i) == After(s.free, i - 1);
      }
    }
  }

  lemma RemoveNumbered<S>(s: Slab<S>, k: nat)
    requires s.Inv() && k in s.outstanding
    ensures s.Remove(k).Numbered()
  {
  }

  lemma RemoveKeeps<S>(s: Slab<S>, k: nat)
    requires s.Inv() && k in s.outstanding
    ensures s.Remove(k).Inv() && s.Remove(k).Count() == s.Count() - 1
    ensures s.Remove(k).Head() == k && |s.Remove(k).free| == |s.free| + 1
  {
    KeyReturns(s, k);
    RemoveNumbered(s, k);
    assert s.Remove(k).Split();
  }

  /** Putting a session in an empty slot keeps the invariant exactly if the key has been handed out; */
  lemma PutKeepsExactly<S>(s: Slab<S>, k: nat, session: S)
    requires s.Inv() && s.IsKey(k) && s.table[k].session.None?
    ensures s.Put(k, session).Inv() <==> k in s.outstanding
    ensures s.Put(k, session).Count() == s.Count() + 1
  {
    if k in s.outstanding {
      PutKeeps(s, k, session);
    } else {
      assert k in s.Put(k, session).live;
    }
  }

  /** and so does taking a key back: one that is free would be on the list twice. */
  lemma RemoveKeepsExactly<S>(s: Slab<S>, k: nat)
    requires s.Inv() && s.IsKey(k)
    ensures s.Remove(k).Inv() <==> k in s.outstanding
    ensures s.Remove(k).Count() == s.Count() - 1
  {
    if k in s.outstanding {
      RemoveKeeps(s, k);
    } else {
      var i :| 0 <= i < |s.free| && s.free[i] == k;
      assert s.Remove(k).free[0] == s.Remove(k).free[i + 1];
    }
  }

  /** A key is handed out exactly when not all of them are outstanding. */
  lemma FullMeansAllOutstanding<S>(s: Slab<S>)
    requires s.Inv()
    ensures |s.outstanding| == 63 * 1024 <==> s.free == [] && s.carved == 63
  {
  }

  /** A handle whose key has been removed since means a session again exactly when the key has one and its
      sequence number has come round; before that it means nothing. */
  lemma StaleHandle<S>(s: Slab<S>, k: nat, g: nat)
    requires s.Inv() && (k, g) in s.issued && (k in s.outstanding ==> g < s.generations[k])
    ensures s.Resolve(k, g % 65536).Some? <==> k in s.live && (s.generations[k] - g) % 65536 == 0
    ensures s.generations[k] < g + 65536 ==> s.Resolve(k, g % 65536) == None
  {
  }

  /** A handle that has not been removed means what was put there. */
  lemma FreshHandle<S>(s: Slab<S>, k: nat, g: nat)
    requires s.Inv() && (k, g) in s.issued && k in s.outstanding && g == s.generations[k]
    ensures s.Resolve(k, g % SEQS) == s.table[k].session
    ensures k in s.live <==> s.Resolve(k, g % SEQS).Some?
  {
  }

  /** The two handles the framework uses for itself never mean a session. */
  lemma SystemHandles<S>(s: Slab<S>, k: nat, seqNo: nat)
    requires s.Inv() && k < 1024
    ensures s.Resolve(k, seqNo) == None && forall g :: (k, g) !in s.issued
  {
  }

  datatype Op<S> = Alloc | Put(k: nat, session: S) | Remove(k: nat)

  ghost predicate Enabled<S>(s: Slab<S>, op: Op<S>) {
    match op
    case Alloc => true
    case Put(k, _) => k in s.outstanding && k !in s.live
    case Remove(k) => k in s.outstanding
  }

  function Apply<S>(s: Slab<S>, op: Op<S>): Slab<S>
    requires s.Inv() && Enabled(s, op)
  {
    match op
    case Alloc =>
      if s.free != [] then s.Issue()
      else if s.carved + 1 < ROWS then CarveKeeps(s); s.Carve().Issue()
      else s
    case Put(k, session) => s.Put(k, session)
    case Remove(k) => s.Remove(k)
  }

  ghost predicate Grown<S>(s: Slab<S>, t: Slab<S>) {
    && s.issued <= t.issued && |s.generations| <= |t.generations|
    && forall k :: 0 <= k < |s.generations| ==> s.generations[k] <= t.generations[k]
  }

  /** Every operation keeps the invariant, forgets no handle and turns no sequence number back. */
  lemma StepKeeps<S>(s: Slab<S>, op: Op<S>)
    requires s.Inv() && Enabled(s, op)
    ensures Apply(s, op).Inv() && Grown(s, Apply(s, op))
  {
    match op
    case Alloc =>
      if s.free != [] {
        IssueKeeps(s);
      } else if s.carved + 1 < ROWS {
        CarveKeeps(s);
        IssueKeeps(s.Carve());
      }
    case Put(k, session) => PutKeeps(s, k, session);
    case Remove(k) => RemoveKeeps(s, k);
  }

  ghost predicate IsRun<S>(states: seq<Slab<S>>, ops: seq<Op<S>>) {
    && |states| == |ops| + 1 && states[0].Inv()
    && forall i {:trigger ops[i]} :: 0 <= i < |ops| ==>
         states[i].Inv() && Enabled(states[i], ops[i]) && states[i + 1] == Apply(states[i], ops[i])
  }

  lemma RunInv<S>(states: seq<Slab<S>>, ops: seq<Op<S>>, j: nat)
    requires IsRun(states, ops) && j <= |ops|
    ensures states[j].Inv()
  {
    if 0 < j {
      StepKeeps(states[j - 1], ops[j - 1]);
    }
  }

  lemma {:induction false} RunGrows<S>(states: seq<Slab<S>>, ops: seq<Op<S>>, i: nat, j: nat)
    requires IsRun(states, ops) && i <= j <= |ops|
    ensures Grown(states[i], states[j])
  {
    if i < j {
      RunGrows(states, ops, i, j - 1);
      StepKeeps(states[j - 1], ops[j - 1]);
    }
  }

  /** In every run, once a key has been removed no handle given out for it before means anything, until its
      sequence number has gone all the way round. */
  lemma RemovedForGood<S>(states: seq<Slab<S>>, ops: seq<Op<S>>, i: nat, j: nat, k: nat, g: nat)
    requires IsRun(states, ops) && i < j <= |ops| && ops[i] == Remove(k) && (k, g) in states[i].issued
    ensures states[j].Inv() && k < |states[j].generations| && g < states[j].generations[k]
    ensures states[j].Resolve(k, g % 65536).Some? <==>
              k in states[j].live && (states[j].generations[k] - g) % 65536 == 0
    ensures states[j].generations[k] < g + 65536 ==> states[j].Resolve(k, g % 65536) == None
  {
    RunInv(states, ops, j);
    assert g <= states[i].generations[k] by {
      assert states[i].IsKey((k, g).0);
    }
    StepKeeps(states[i], ops[i]);
    RunGrows(states, ops, i + 1, j);
    StaleHandle(states[j], k, g);
  }

  /** How many of the first j operations remove a key that has no session. */
  function Bare<S>(states: seq<Slab<S>>, ops: seq<Op<S>>, j: nat): nat
    requires j <= |ops| && j <= |states|
  {
    if j == 0 then 0
    else Bare(states, ops, j - 1) + if ops[j - 1].Remove? && ops[j - 1].k !in states[j - 1].live then 1 else 0
  }

  lemma StepUnput<S>(s: Slab<S>, op: Op<S>)
    requires s.Inv() && Enabled(s, op)
    ensures Apply(s, op).unput == s.unput + if op.Remove? && op.k !in s.live then 1 else 0
  {
  }

  lemma {:induction false} UnputIsBare<S>(states: seq<Slab<S>>, ops: seq<Op<S>>, j: nat)
    requires IsRun(states, ops) && j <= |ops|
    ensures states[j].unput == states[0].unput + Bare(states, ops, j)
  {
    if j > 0 {
      UnputIsBare(states, ops, j - 1);
      StepUnput(states[j - 1], ops[j - 1]);
    }
  }

  lemma {:induction false} NoneBare<S>(states: seq<Slab<S>>, ops: seq<Op<S>>, j: nat)
    requires j <= |ops| && j <= |states|
    ensures Bare(states, ops, j) == 0 <==> forall i :: 0 <= i < j && ops[i].Remove? ==> ops[i].k in states[i].live
  {
    if j > 0 {
      NoneBare(states, ops, j - 1);
    }
  }

  /** The session count is right exactly as long as every key removed had a session; each that had none takes
      one from it for good. */
  lemma CountFallsBehind<S>(states: seq<Slab<S>>, ops: seq<Op<S>>, j: nat)
    requires IsRun(states, ops) && j <= |ops| && states[0].unput == 0
    ensures states[j].Count() == |states[j].live| - Bare(states, ops, j)
    ensures states[j].Count() == |states[j].live| <==>
              forall i :: 0 <= i < j && ops[i].Remove? ==> ops[i].k in states[i].live
  {
    UnputIsBare(states, ops, j);
    NoneBare(states, ops, j);
  }

  /** The rows from 1 up are the pieces of the table; the others have not been allocated. */
  ghost predicate Tied<S>(rows: seq<seq<Entry<S>>>, carved: nat, table: seq<Entry<S>>) {
    && |rows| == ROWS && carved < ROWS && |table| == COLS * (carved + 1)
    && (forall r :: 0 <= r < ROWS ==> |rows[r]| == if 1 <= r <= carved then COLS else 0)
    && (forall r, c :: 1 <= r <= carved && 0 <= c < |rows[r]| ==> rows[r][c] == table[COLS * r + c])
  }

  lemma TiedSlot<S>(rows: seq<seq<Entry<S>>>, carved: nat, table: seq<Entry<S>>, k: nat)
    requires Tied(rows, carved, table) && COLS <= k < |table|
    ensures k / COLS < ROWS && |rows[k / COLS]| == COLS && rows[k / COLS][k % COLS] == table[k]
  {
  }

  lemma TiedUpdate<S>(rows: seq<seq<Entry<S>>>, carved: nat, table: seq<Entry<S>>, k: nat, e: Entry<S>)
    requires Tied(rows, carved, table) && COLS <= k < |table|
    ensures k / COLS < ROWS && |rows[k / COLS]| == COLS
    ensures Tied(rows[k / COLS := rows[k / COLS][k % COLS := e]], carved, table[k := e])
  {
  }

  lemma TiedCarve<S>(rows: seq<seq<Entry<S>>>, carved: nat, table: seq<Entry<S>>, avail: nat, row: seq<Entry<S>>)
    requires Tied(rows, carved, table) && avail == carved + 1 < ROWS && |row| == COLS
    ensures Tied(rows[avail := row], avail, table + row)
  {
  }

  class SessionManager<S> {
    var rows: seq<seq<Entry<S>>>
    var freeCount: int
    var freeList: nat
    var count: int
    /** What the rows stand for. */
    ghost var slab: Slab<S>

    /** The fields are those of the slab. */
    ghost predicate Shows(s: Slab<S>)
      reads this
    {
      Tied(rows, s.carved, s.table) && freeCount == |s.free| && freeList == s.Head() && count == s.Count()
    }

    ghost predicate Valid()
      reads this
    {
      slab.Inv() && Shows(slab)
    }

    constructor ()
      ensures Valid() && slab.outstanding == {} && slab.live == {} && slab.issued == {} && count == 0
    {
      rows := seq(ROWS, i => []);
      freeCount, freeList, count := 0, 0, 0;
      slab := Slab(0, seq(COLS, i => Entry(0, 0, None)), [], {}, {}, seq(COLS, i => 0), {}, 0);
    }

    /** The first row that has not been allocated, or -1. */
    method FindRow() returns (avail: int)
      requires Valid()
      ensures avail == if slab.carved + 1 < ROWS then slab.carved + 1 else -1
    {
      var i := 1;
      while i < ROWS
        invariant 1 <= i <= ROWS && i <= slab.carved + 1
      {
        if rows[i] == [] {
          return i;
        }
        i := i + 1;
      }
      return -1;
    }

    /** A new row with its slots threaded from freeList on. */
    method ThreadRow(avail: nat) returns (row: seq<Entry<S>>)
      requires freeList == 0
      modifies this`freeList
      ensures row == NewRow(COLS * avail) && freeList == COLS * avail
    {
      row := seq(COLS, i => Entry(0, 0, None));
      var i := COLS - 1;
      while i >= 0
        invariant -1 <= i < COLS && |row| == COLS
        invariant freeList == if i == COLS - 1 then 0 else COLS * avail + i + 1
        invariant forall j :: 0 <= j < COLS ==>
                    row[j] == Entry(0, if j <= i || j == COLS - 1 then 0 else COLS * avail + j + 1, None)
      {
        row := row[i := row[i].(next := freeList)];
        freeList := COLS * avail + i;
        i := i - 1;
      }
    }

    /** Allocates a row when no key is free. */
    method Carve(avail: nat)
      requires Valid() && slab.free == [] && avail == slab.carved + 1 < ROWS
      modifies this
      ensures Valid() && slab == old(slab).Carve() && count == old(count)
    {
      CarveKeeps(slab);
      freeCount := freeCount + COLS;
      var row := ThreadRow(avail);
      TiedCarve(rows, slab.carved, slab.table, avail, row);
      rows := rows[avail := row];
      slab := slab.Carve();
    }

    /** Hands out the first key of the free list. */
    method IssueHead() returns (key: nat, seqNo: nat)
      requires Valid() && slab.free != []
      modifies this
      ensures Valid() && slab == old(slab).Issue() && count == old(count)
      ensures key == old(slab).free[0] && seqNo == slab.table[key].seqNo
    {
      IssueKeeps(slab);
      TiedSlot(rows, slab.carved, slab.table, freeList);
      key := freeList;
      freeCount := freeCount - 1;
      var row, col := freeList / COLS, freeList % COLS;
      seqNo := rows[row][col].seqNo;
      freeList := rows[row][col].next;
      slab := slab.Issue();
    }

    /** Hands out a key that is not outstanding, or 0 when every key is; carves a row first if none is free. */
    method AllocKey() returns (key: nat, seqNo: nat)
      requires Valid()
      modifies this
      ensures Valid() && count == old(count)
      ensures key == 0 <==> |old(slab).outstanding| == COLS * (ROWS - 1)
      ensures key == 0 ==> slab == old(slab)
      ensures key != 0 ==>
                && COLS <= key < |slab.table| && key !in old(slab).outstanding && seqNo == slab.table[key].seqNo
                && (key, slab.generations[key]) !in old(slab).issued
                && slab == (if old(slab).free == [] then old(slab).Carve() else old(slab)).Issue()
                && slab.outstanding == old(slab).outstanding + {key}
    {
      key, seqNo := 0, 0;
      FullMeansAllOutstanding(slab);
      if freeList <= 0 {
        var avail := FindRow();
        if avail > 0 {
          Carve(avail);
        }
      }
      if freeList > 0 {
        IssueKeeps(slab);
        HeadLeaves(slab);
        key, seqNo := IssueHead();
      }
    }

    /** Overwrites the slot of a key. */
    method SetSlot(key: nat, entry: Entry<S>)
      requires Tied(rows, slab.carved, slab.table) && slab.IsKey(key)
      modifies this`rows
      ensures Tied(rows, slab.carved, slab.table[key := entry])
    {
      TiedSlot(rows, slab.carved, slab.table, key);
      TiedUpdate(rows, slab.carved, slab.table, key, entry);
      var row, col := key / COLS, key % COLS;
      rows := rows[row := rows[row][col := entry]];
    }

    /** Puts a session in an empty slot; what is required is what the source asserts. */
    method Put(key: nat, seqNo: nat, session: S)
      requires Valid() && slab.IsKey(key) && slab.table[key].session.None? && slab.table[key].seqNo == seqNo
      modifies this
      ensures Shows(slab) && slab == old(slab).Put(key, session) && count == old(count) + 1
      ensures Valid() <==> key in old(slab).outstanding
    {
      PutKeepsExactly(slab, key, session);
      TiedSlot(rows, slab.carved, slab.table, key);
      SetSlot(key, rows[key / COLS][key % COLS].(session := Some(session)));
      count := count + 1;
      slab := slab.Put(key, session);
    }

    /** The session of a key, with the sequence number to compare. */
    function Get(key: nat): (r: (Option<S>, nat))
      requires Valid() && key < COLS * ROWS
      reads this
      ensures r == if slab.IsKey(key) then (slab.table[key].session, slab.table[key].seqNo) else (None, 0)
    {
      var list := rows[key / COLS];
      if list != [] then (list[key % COLS].session, list[key % COLS].seqNo) else (None, 0)
    }

    /** Puts the key at the head of the free list, its slot empty and its sequence number advanced. */
    method TakeBack(key: nat, ghost s: Slab<S>) returns (r: Option<S>)
      requires Shows(s) && slab == s && s.Inv() && s.IsKey(key)
      modifies this`rows, this`freeCount, this`freeList, this`count
      ensures Shows(s.Remove(key)) && r == s.table[key].session
    {
      TiedSlot(rows, s.carved, s.table, key);
      var entry := rows[key / COLS][key % COLS];
      r := entry.session;
      SetSlot(key, Entry(NextSeq(entry.seqNo), freeList, None));
      freeList := key;
      freeCount := freeCount + 1;
      count := count - 1;
      RemoveKeepsExactly(s, key);
    }

    /** Takes the key back; a key without a slot changes nothing. What is required is what the source asserts. */
    method Remove(key: nat, seqNo: nat) returns (r: Option<S>)
      requires Valid() && key < COLS * ROWS
      requires slab.IsKey(key) ==> slab.table[key].seqNo == seqNo
      modifies this
      ensures Shows(slab) && r == old(Get(key).0)
      ensures slab == if old(slab).IsKey(key) then old(slab).Remove(key) else old(slab)
      ensures Valid() <==> (old(slab).IsKey(key) ==> key in old(slab).outstanding)
    {
      r := None;
      if rows[key / COLS] != [] {
        RemoveKeepsExactly(slab, key);
        r := TakeBack(key, slab);
        slab := slab.Remove(key);
      }
    }
  }
}
