/** Two tables that operations reach from a new file system and that are the last good ones. */
module LinkRuns {
  import opened Kinds
  import opened LinkSpec
  import opened Links

  lemma {:induction false} RunAppend(t: Table, ops: seq<Op>, op: Op)
    requires Run(t, ops) && Allowed(Exec(t, ops), op)
    ensures Run(t, ops + [op]) && Exec(t, ops + [op]) == After(Exec(t, ops), op)
    decreases |ops|
  {
    hide Allowed, After;
    var all := ops + [op];
    if ops == [] {
      assert all[1..] == [];
    } else {
      assert all[1..] == ops[1..] + [op];
      RunAppend(After(t, ops[0]), ops[1..], op);
    }
  }

  // ----- a file with as many names as its count can hold -----

  /** Three letters for each number below 32768. */
  function Letters(k: nat): Name
    requires k < 32768
  {
    [(64 + k / 32 / 32) as char, (64 + k / 32 % 32) as char, (64 + k % 32) as char]
  }

  lemma LettersDiffer(j: nat, k: nat)
    requires j < 32768 && k < 32768 && Letters(j) == Letters(k)
    ensures j == k
  {
    assert Letters(j)[0] == Letters(k)[0] && Letters(j)[1] == Letters(k)[1] && Letters(j)[2] == Letters(k)[2];
    SameDigits(j / 32, k / 32);
    SameDigits(j, k);
  }

  lemma SameDigits(a: nat, b: nat)
    requires a / 32 == b / 32 && a % 32 == b % 32
    ensures a == b
  {
  }

  lemma LettersNotDots(k: nat)
    requires k < 32768
    ensures Letters(k) != "." && Letters(k) != ".."
  {
    assert |Letters(k)| == 3;
  }

  /** The root's entries when inode 2 has the first `k` names. */
  function Entries(k: nat): seq<Dirent>
    requires k <= 32768
  {
    [Dirent(ROOTINO, "."), Dirent(ROOTINO, "..")] + seq(k, j requires 0 <= j < k => Dirent(2, Letters(j)))
  }

  function ManyNames(n: nat, k: nat): Table
    requires n > 0 && k <= 32768
  {
    Fresh(n)[ROOTINO := Node(Dir, 1, Entries(k), 0)][2 := Node(File, k, [], 1)]
  }

  lemma NextName(k: nat)
    requires k < 32768
    ensures FreeSlot(Entries(k), k + 2) && Absent(Entries(k), Letters(k))
    ensures Entries(k + 1) == Put(Entries(k), k + 2, Dirent(2, Letters(k)))
  {
    hide Letters;
    var es := Entries(k);
    forall j | 0 <= j < |es|
      ensures es[j].inum != 0 && es[j].name != Letters(k)
    {
      LettersNotDots(k);
      if j >= 2 && es[j].name == Letters(k) {
        LettersDiffer(j - 2, k);
      }
    }
  }

  lemma FirstStep(n: nat)
    requires n > 0
    ensures Allowed(Fresh(n), DoCreate(ROOTINO, 2, 2, Letters(0), File))
    ensures After(Fresh(n), DoCreate(ROOTINO, 2, 2, Letters(0), File)) == ManyNames(n, 1)
  {
    NextName(0);
    assert Entries(0) == Fresh(n)[ROOTINO].entries;
  }

  lemma NextStep(n: nat, k: nat)
    requires n > 0 && 0 < k < SHORT_MAX
    ensures Allowed(ManyNames(n, k), DoLink(ROOTINO, k + 2, 2, Letters(k)))
    ensures After(ManyNames(n, k), DoLink(ROOTINO, k + 2, 2, Letters(k))) == ManyNames(n, k + 1)
  {
    hide Entries, Put;
    NextName(k);
  }

  lemma {:induction false} NamesReached(n: nat, k: nat) returns (ops: seq<Op>)
    requires n > 0 && 0 < k <= SHORT_MAX
    ensures Run(Fresh(n), ops) && Exec(Fresh(n), ops) == ManyNames(n, k)
  {
    hide Allowed, After, ManyNames;
    var op;
    if k == 1 {
      ops, op := [], DoCreate(ROOTINO, 2, 2, Letters(0), File);
      FirstStep(n);
    } else {
      ops := NamesReached(n, k - 1);
      op := DoLink(ROOTINO, k + 1, 2, Letters(k - 1));
      NextStep(n, k - 1);
    }
    RunAppend(Fresh(n), ops, op);
    ops := ops + [op];
  }

  /** On every file system with an inode to spare, links alone lead to a file whose next name breaks its count. */
  lemma CountOverflows(n: nat)
    requires n > 0
    ensures exists ops, k: nat, name ::
      && Run(Fresh(n), ops)
      && var t := Exec(Fresh(n), ops);
        && Agree(t) && |t| > 2 && t[2].kind == File && t[2].nlink == SHORT_MAX
        && FreeSlot(t[ROOTINO].entries, k) && Absent(t[ROOTINO].entries, name)
        && !Agree(WithLink(t, ROOTINO, k, 2, name))
  {
    hide Agree, FreeSlot, Absent, Run, Exec, Entries;
    var ops := NamesReached(n, SHORT_MAX);
    var t := ManyNames(n, SHORT_MAX);
    FreshAgrees(n);
    CountsAlwaysAgree(Fresh(n), ops);
    NextName(SHORT_MAX);
    LinkOutcome(t, ROOTINO, SHORT_MAX + 2, 2, Letters(SHORT_MAX));
  }

  // ----- a directory in use that nothing names -----

  function WithDir(n: nat, ref: nat): Table
    requires n > 0
  {
    Fresh(n)[ROOTINO := Node(Dir, 2, [Dirent(ROOTINO, "."), Dirent(ROOTINO, ".."), Dirent(2, "d")], 0)]
            [2 := Node(Dir, 1, [Dirent(2, "."), Dirent(ROOTINO, "..")], ref)]
  }

  function Orphan(n: nat): Table
    requires n > 0
  {
    Fresh(n)[ROOTINO := Node(Dir, 1, [Dirent(ROOTINO, "."), Dirent(ROOTINO, ".."), Dirent(0, "")], 0)]
            [2 := Node(Dir, 0, [Dirent(2, "."), Dirent(ROOTINO, "..")], 1)]
  }

  lemma MakeDir(n: nat)
    requires n > 0
    ensures Allowed(Fresh(n), DoCreate(ROOTINO, 2, 2, "d", Dir))
    ensures After(Fresh(n), DoCreate(ROOTINO, 2, 2, "d", Dir)) == WithDir(n, 1)
  {
    var es := Fresh(n)[ROOTINO].entries;
    assert Put(es, 2, Dirent(2, "d")) == es + [Dirent(2, "d")] == WithDir(n, 1)[ROOTINO].entries;
  }

  lemma EnterDir(n: nat)
    requires n > 0
    ensures Allowed(WithDir(n, 1), DoGet(2)) && After(WithDir(n, 1), DoGet(2)) == WithDir(n, 2)
    ensures Allowed(WithDir(n, 2), DoPut(2)) && After(WithDir(n, 2), DoPut(2)) == WithDir(n, 1)
  {
  }

  lemma RemoveDir(n: nat)
    requires n > 0
    ensures Allowed(WithDir(n, 1), DoUnlink(ROOTINO, 2)) && After(WithDir(n, 1), DoUnlink(ROOTINO, 2)) == Orphan(n)
  {
    var t := WithDir(n, 1);
    assert t[ROOTINO].entries[2 := Dirent(0, "")] == Orphan(n)[ROOTINO].entries;
    assert Dropped(t, ROOTINO, 2) == WithoutLink(t, ROOTINO, 2);
  }

  /**
   * A directory is made, another process goes there, and the directory is removed: a file
   * created in it has no name that counts.
   */
  lemma DirectoryUnlinked(n: nat)
    requires n > 1
    ensures exists ops ::
      && Run(Fresh(n), ops)
      && var t := Exec(Fresh(n), ops);
        && Agree(t) && IsDir(t, 2) && !Linked(t, 2) && t[2].ref > 0 && Vacant(t, 2, 3)
        && !Agree(WithNew(t, 2, |t[2].entries|, 3, "a", File))
  {
    hide Agree, Run, Exec, Allowed, After, WithDir;
    var t, ops := Fresh(n), [];
    Nothing(t);
    MakeDir(n);
    RunAppend(t, ops, DoCreate(ROOTINO, 2, 2, "d", Dir));
    ops := ops + [DoCreate(ROOTINO, 2, 2, "d", Dir)];
    EnterDir(n);
    RunAppend(t, ops, DoGet(2));
    ops := ops + [DoGet(2)];
    RunAppend(t, ops, DoPut(2));
    ops := ops + [DoPut(2)];
    RemoveDir(n);
    RunAppend(t, ops, DoUnlink(ROOTINO, 2));
    ops := ops + [DoUnlink(ROOTINO, 2)];
    FreshAgrees(n);
    CountsAlwaysAgree(t, ops);
    UnlinkedDirectory(Orphan(n), 2, 2, 3, "a", File);
  }

  lemma Nothing(t: Table)
    ensures Run(t, []) && Exec(t, []) == t
  {
  }
}
