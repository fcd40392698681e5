/**
 * A directory block as a list of variable-length records, and the same list read from bytes.
 * Insertion splits the first record with enough slack; removal merges a record into the one before it.
 */
module DirRecords {
  import opened Bytes

  const DIR_ENTRY_SIZE: nat := 8
  const NAME_LEN: nat := 255
  const FT_REG_FILE: byte := 1
  const FT_DIR: byte := 2

  type Name = seq<byte>

  const DOT: Name := [46]
  const DOT_DOT: Name := [46, 46]

  /** What a caller sees of a record. */
  datatype Entry = Entry(inode: nat, fileType: byte, name: Name)

  datatype Rec = Rec(inode: nat, recLen: nat, fileType: byte, name: Name)

  /** A name as `std::string` holds it when it comes from a path: short and without NUL bytes. */
  predicate NameOk(name: Name) {
    |name| <= NAME_LEN && 0 !in name
  }

  predicate EntryOk(e: Entry) {
    e.inode < 0x1_0000_0000 && NameOk(e.name)
  }

  predicate IsDot(name: Name) {
    name == DOT || name == DOT_DOT
  }

  /** Header, name and NUL, rounded up to a multiple of four. */
  function Need(nameLen: nat): (n: nat)
    ensures n >= nameLen + 1 + DIR_ENTRY_SIZE
  {
    (nameLen + 1 + DIR_ENTRY_SIZE + 3) / 4 * 4
  }

  function ToEntry(r: Rec): Entry {
    Entry(r.inode, r.fileType, r.name)
  }

  function Total(recs: seq<Rec>): nat {
    if recs == [] then 0 else recs[0].recLen + Total(recs[1..])
  }

  lemma {:induction false} TotalConcat(s: seq<Rec>, t: seq<Rec>)
    ensures Total(s + t) == Total(s) + Total(t)
  {
    if s == [] {
      assert s + t == t;
    } else {
      assert (s + t)[1..] == s[1..] + t;
      TotalConcat(s[1..], t);
    }
  }

  // ----- lists of records -----

  predicate RecOk(r: Rec) {
    r.inode < 0x1_0000_0000 && NameOk(r.name) && Need(|r.name|) <= r.recLen <= BLOCK_SIZE
  }

  predicate RecsOk(recs: seq<Rec>) {
    forall k :: 0 <= k < |recs| ==> RecOk(recs[k])
  }

  function Slack(r: Rec): int {
    r.recLen - Need(|r.name|)
  }

  /** The first record whose slack is at least `need`, or the length of the list. */
  function FirstFit(recs: seq<Rec>, need: nat): (k: nat)
    ensures k <= |recs|
    ensures k < |recs| ==> Slack(recs[k]) >= need
    ensures forall j :: 0 <= j < k ==> Slack(recs[j]) < need
  {
    if recs == [] || Slack(recs[0]) >= need then 0 else 1 + FirstFit(recs[1..], need)
  }

  function Trimmed(r: Rec): Rec {
    r.(recLen := Need(|r.name|))
  }

  function Inserted(recs: seq<Rec>, k: nat, e: Entry): seq<Rec>
    requires k < |recs| && Slack(recs[k]) >= 0
  {
    recs[..k] + [Trimmed(recs[k]), Rec(e.inode, Slack(recs[k]), e.fileType, e.name)] + recs[k + 1..]
  }

  function Insert(recs: seq<Rec>, e: Entry): Option<seq<Rec>> {
    var k := FirstFit(recs, Need(|e.name|));
    if k == |recs| then None else Some(Inserted(recs, k, e))
  }

  function FindInode(recs: seq<Rec>, inode: nat): (k: nat)
    ensures k <= |recs|
    ensures k < |recs| ==> recs[k].inode == inode
    ensures forall j :: 0 <= j < k ==> recs[j].inode != inode
  {
    if recs == [] || recs[0].inode == inode then 0 else 1 + FindInode(recs[1..], inode)
  }

  function Merged(r: Rec, s: Rec): Rec {
    r.(recLen := r.recLen + s.recLen)
  }

  function Removed(recs: seq<Rec>, k: nat): seq<Rec>
    requires 1 <= k < |recs|
  {
    recs[..k - 1] + [Merged(recs[k - 1], recs[k])] + recs[k + 1..]
  }

  /** The shape every directory block has: "." first, without slack, then "..", then ordinary names. */
  predicate Shaped(recs: seq<Rec>, self: nat) {
    && |recs| >= 2
    && recs[0].inode == self && recs[0].name == DOT && recs[0].recLen == 12
    && recs[1].name == DOT_DOT
    && (forall k :: 2 <= k < |recs| ==> !IsDot(recs[k].name))
    && RecsOk(recs) && Total(recs) == BLOCK_SIZE
  }

  /** What an `init_entry_block` leaves. */
  function InitRecs(inode: nat, father: nat): seq<Rec> {
    [Rec(inode, 12, FT_DIR, DOT), Rec(father, BLOCK_SIZE - 12, FT_DIR, DOT_DOT)]
  }

  lemma InitShaped(inode: nat, father: nat)
    requires inode < 0x1_0000_0000 && father < 0x1_0000_0000
    ensures Shaped(InitRecs(inode, father), inode)
  {
    var recs := InitRecs(inode, father);
    assert recs == [] + [recs[0], recs[1]] + [];
    TotalPair([], recs[0], recs[1], []);
    assert Need(1) == 12 && Need(2) == 12;
  }

  /** A fresh block takes any name that passes the length assertion. */
  lemma InitTakesAnyName(inode: nat, father: nat, e: Entry)
    requires |e.name| <= NAME_LEN
    ensures FirstFit(InitRecs(inode, father), Need(|e.name|)) == 1
  {
    assert Need(1) == 12 && Need(2) == 12;
    assert Slack(InitRecs(inode, father)[1]) == 1000;
  }

  lemma TotalAround(recs: seq<Rec>, k: nat)
    requires k < |recs|
    ensures Total(recs) == Total(recs[..k]) + recs[k].recLen + Total(recs[k + 1..])
  {
    hide Total;
    assert recs == recs[..k] + [recs[k]] + recs[k + 1..];
    TotalSingle(recs[..k], recs[k], recs[k + 1..]);
  }

  lemma TotalPair(s: seq<Rec>, r: Rec, t: Rec, u: seq<Rec>)
    ensures Total(s + [r, t] + u) == Total(s) + r.recLen + t.recLen + Total(u)
  {
    assert s + [r, t] + u == s + ([r] + ([t] + u));
    TotalConcat(s, [r] + ([t] + u));
    assert ([r] + ([t] + u))[1..] == [t] + u;
    assert ([t] + u)[1..] == u;
  }

  /** Insertion adds one entry right after the record it splits and changes no other entry. */
  lemma InsertedEntries(recs: seq<Rec>, k: nat, e: Entry)
    requires k < |recs| && Slack(recs[k]) >= 0
    ensures var recs' := Inserted(recs, k, e);
            && |recs'| == |recs| + 1
            && ToEntry(recs'[k + 1]) == e
            && (forall j :: 0 <= j <= k ==> ToEntry(recs'[j]) == ToEntry(recs[j]))
            && (forall j :: k + 1 < j < |recs'| ==> recs'[j] == recs[j - 1])
  {
  }

  lemma InsertedShaped(recs: seq<Rec>, self: nat, k: nat, e: Entry)
    requires Shaped(recs, self) && EntryOk(e) && !IsDot(e.name)
    requires k < |recs| && Slack(recs[k]) >= Need(|e.name|)
    ensures Shaped(Inserted(recs, k, e), self)
  {
    assert Need(1) == 12;
    assert k >= 1;
    InsertedEntries(recs, k, e);
    TotalAround(recs, k);
    TotalPair(recs[..k], Trimmed(recs[k]), Rec(e.inode, Slack(recs[k]), e.fileType, e.name), recs[k + 1..]);
  }

  lemma RemovedTotal(recs: seq<Rec>, k: nat)
    requires 1 <= k < |recs|
    ensures Total(Removed(recs, k)) == Total(recs)
  {
    hide Total;
    var s, u := recs[..k - 1], recs[k + 1..];
    assert recs == s + [recs[k - 1], recs[k]] + u;
    TotalPair(s, recs[k - 1], recs[k], u);
    TotalSingle(s, Merged(recs[k - 1], recs[k]), u);
  }

  lemma TotalSingle(s: seq<Rec>, r: Rec, u: seq<Rec>)
    ensures Total(s + [r] + u) == Total(s) + r.recLen + Total(u)
  {
    assert s + [r] + u == s + ([r] + u);
    TotalConcat(s, [r] + u);
    assert ([r] + u)[1..] == u;
  }

  lemma RecLenBound(recs: seq<Rec>, k: nat)
    requires k < |recs|
    ensures recs[k].recLen <= Total(recs)
  {
    TotalAround(recs, k);
  }

  lemma RemovedShaped(recs: seq<Rec>, self: nat, k: nat)
    requires Shaped(recs, self) && 2 <= k < |recs|
    ensures Shaped(Removed(recs, k), self)
  {
    RemovedTotal(recs, k);
    RecLenBound(Removed(recs, k), k - 1);
  }

  /** Adding an inode and freeing it restores every record with its original length. */
  lemma InsertRemoveRoundTrip(recs: seq<Rec>, e: Entry)
    requires forall k :: 0 <= k < |recs| ==> recs[k].inode != e.inode
    requires Insert(recs, e).Some?
    ensures var recs' := Insert(recs, e).value;
            var k := FindInode(recs', e.inode);
            1 <= k < |recs'| && Removed(recs', k) == recs
  {
    var k := FirstFit(recs, Need(|e.name|));
    var recs' := Inserted(recs, k, e);
    InsertedEntries(recs, k, e);
    assert forall j :: 0 <= j <= k ==> recs'[j].inode == ToEntry(recs'[j]).inode;
    assert FindInode(recs', e.inode) == k + 1;
    assert Merged(recs'[k], recs'[k + 1]) == recs[k];
  }
}
