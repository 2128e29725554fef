/**
 * A folder whose `.roo` holds two links to files outside it. As written the
 * scan files both links under the key `None`, so they form one group and the
 * plan copies one unrelated file over the other; with the intended key (the
 * entry's parts below `.roo`) they stay apart.
 */
module SyncFindings {
  import opened Wrappers
  import opened Filesystem
  import opened FilePathUtils
  import opened SyncCore

  const Folder: Path := ["p"]
  const Roo: Path := ["p", ".roo"]
  const LinkX: Path := ["p", ".roo", "x"]
  const LinkY: Path := ["p", ".roo", "y"]
  const TargetX: Path := ["o", "f1"]
  const TargetY: Path := ["o", "f2"]

  /** `/p/.roo` holds the links `x`, to `/o/f1`, and `y`, to `/o/f2`. */
  const LinkedFs: Fs := map[
    Folder := Dir, Roo := Dir, LinkX := Symlink(TargetX), LinkY := Symlink(TargetY),
    ["o"] := Dir, TargetX := File([1], 1), TargetY := File([2], 2)]

  /** The walk of `/p/.roo`: the two links, as parts below it. */
  const RelX: Path := ["x"]
  const RelY: Path := ["y"]
  const First: seq<Path> := [RelX]
  const Walk: seq<Path> := [RelX, RelY]
  const LinkedListing: Listing := root => if root == Roo then Walk else []

  /** Resolution that follows the two links and leaves `/p` as it is. */
  const LinkedResolve: Resolver :=
    t => if t == "/p/.roo/x" then TargetX else if t == "/p/.roo/y" then TargetY else if t == "/p" then Folder else []

  /** The records of the two links carry the mtimes and sizes of their targets. */
  const RecordX: FileRecord := FileRecord(LinkX, 1, 1, Folder)
  const RecordY: FileRecord := FileRecord(LinkY, 2, 1, Folder)

  lemma Layout()
    ensures ScanRoot(Folder) == Roo
    ensures Roo + RelX == LinkX && Roo + RelY == LinkY
  {
  }

  lemma Texts()
    ensures PathText(Folder) == "/p"
    ensures PathText(LinkX) == "/p/.roo/x"
    ensures PathText(LinkY) == "/p/.roo/y"
  {
  }

  lemma Normalized()
    ensures NormalizePath(PathObj("/p"), LinkedResolve) == Success(Folder)
    ensures NormalizePath(PathObj("/p/.roo/x"), LinkedResolve) == Success(TargetX)
    ensures NormalizePath(PathObj("/p/.roo/y"), LinkedResolve) == Success(TargetY)
  {
    assert Text.Trimmed("/p") && Text.Trimmed("/p/.roo/x") && Text.Trimmed("/p/.roo/y");
    assert LinkedResolve("/p") == Folder;
    assert LinkedResolve("/p/.roo/x") == TargetX;
    assert LinkedResolve("/p/.roo/y") == TargetY;
  }

  lemma FolderResolves()
    ensures NormalizePath(PathObj(PathText(Folder)), LinkedResolve) == Success(Folder)
  {
    Texts();
    Normalized();
  }

  /** The targets of the links, below `/o`, are not below `/p/.roo`. */
  lemma TargetOutsideRoo(target: Path)
    requires |target| == 2 && target[0] == "o"
    ensures !IsPrefix(Roo, target)
  {
    assert target[..2][0] == "o";
    assert "o"[0] != "p"[0];
  }

  /** An entry that `LinkedResolve` sends below `/o` gets no key. */
  lemma KeyNone(fs: Fs, item: Path, text: string, target: Path)
    requires PathText(item) == text && NormalizePath(PathObj(text), LinkedResolve) == Success(target)
    requires |target| == 2 && target[0] == "o"
    ensures RelativeKey(fs, item, Folder, LinkedResolve) == None
  {
    FolderResolves();
    Layout();
    TargetOutsideRoo(target);
    KeyNoneOutsideRoo(fs, item, Folder, LinkedResolve);
  }

  lemma KeysNone(fs: Fs)
    ensures RelativeKey(fs, LinkX, Folder, LinkedResolve) == None
    ensures RelativeKey(fs, LinkY, Folder, LinkedResolve) == None
  {
    Texts();
    Normalized();
    KeyNone(fs, LinkX, "/p/.roo/x", TargetX);
    KeyNone(fs, LinkY, "/p/.roo/y", TargetY);
  }

  lemma Stats()
    ensures Stat(LinkedFs, LinkX) == Some(File([1], 1))
    ensures Stat(LinkedFs, LinkY) == Some(File([2], 2))
  {
  }

  lemma Dirs()
    ensures IsDir(LinkedFs, Folder) && RooDirAt(LinkedFs, Folder)
  {
    Layout();
  }

  lemma HasRooHere()
    ensures HasRoo(LinkedFs, Folder, LinkedResolve)
  {
    Texts();
    Normalized();
    Dirs();
    assert HasRooDir(LinkedFs, PathObj("/p"), LinkedResolve) == Success(true);
  }

  lemma ItemHits()
    ensures ItemHit(LinkedFs, Folder, RelX, [], LinkedResolve) == Some(Hit(None, RecordX))
    ensures ItemHit(LinkedFs, Folder, RelY, [], LinkedResolve) == Some(Hit(None, RecordY))
  {
    Layout();
    Stats();
    KeysNone(LinkedFs);
  }

  lemma FirstHit()
    ensures FolderHits(LinkedFs, Folder, First, [], LinkedResolve) == [Hit(None, RecordX)]
  {
    ItemHits();
    assert First[..0] == [] && First[0] == RelX;
  }

  lemma Hits()
    ensures FolderHits(LinkedFs, Folder, Walk, [], LinkedResolve) == [Hit(None, RecordX), Hit(None, RecordY)]
  {
    ItemHits();
    FirstHit();
    assert Walk[..1] == First && Walk[1] == RelY;
    assert FolderHits(LinkedFs, Folder, Walk, [], LinkedResolve)
      == FolderHits(LinkedFs, Folder, First, [], LinkedResolve) + OptionSeq(ItemHit(LinkedFs, Folder, RelY, [], LinkedResolve));
  }

  lemma Scan()
    ensures FolderScan(LinkedFs, Folder, LinkedListing, [], LinkedResolve) == [Hit(None, RecordX), Hit(None, RecordY)]
  {
    HasRooHere();
    Layout();
    Hits();
  }

  /** `LinkedListing` is the walk of `/p/.roo` in `LinkedFs`. */
  lemma Walked()
    ensures WalksTree(LinkedFs, LinkedListing, ScanRoot(Folder))
  {
    Layout();
    forall q | q in LinkedFs && IsPrefix(Roo, q) && |q| > |Roo|
      ensures q[|Roo|..] in LinkedListing(Roo)
    {
      assert q == LinkX || q == LinkY;
    }
  }

  /** Two records filed under one key give one copy, from the newer onto the older. */
  lemma PlanOneGroup(k: Key)
    ensures Plan(BuildIndex([Hit(k, RecordX), Hit(k, RecordY)])) == [CopyAction(k, RecordY, RecordX)]
  {
    var hits := [Hit(k, RecordX), Hit(k, RecordY)];
    assert hits[..1] == [Hit(k, RecordX)] && hits[..1][..0] == [];
    assert BuildIndex(hits[..1]) == [(k, [RecordX])];
    var one: FileIndex := [(k, [RecordX])];
    assert BuildIndex(hits) == AddRecord(one, k, RecordY);
    assert one[1..] == [] && [RecordX] + [RecordY] == [RecordX, RecordY];
    var index := BuildIndex(hits);
    assert index == [(k, [RecordX, RecordY])];
    assert index[..0] == [];
    var g: Group := [RecordX, RecordY];
    assert NewestIndex(g) == 1;
    assert g[..1] == [RecordX] && g[..1][..0] == [];
    assert Without(g, RecordY) == [RecordX];
    var dests: Group := [RecordX];
    assert dests[..0] == [];
  }

  /** Records filed under two keys give no copy. */
  lemma PlanTwoGroups(kx: Key, ky: Key)
    requires kx != ky
    ensures Plan(BuildIndex([Hit(kx, RecordX), Hit(ky, RecordY)])) == []
  {
    var hits := [Hit(kx, RecordX), Hit(ky, RecordY)];
    assert hits[..1] == [Hit(kx, RecordX)] && hits[..1][..0] == [];
    assert BuildIndex(hits[..1]) == [(kx, [RecordX])];
    var one: FileIndex := [(kx, [RecordX])];
    assert BuildIndex(hits) == AddRecord(one, ky, RecordY);
    assert one[1..] == [];
    assert AddRecord([], ky, RecordY) == [(ky, [RecordY])];
    var index := BuildIndex(hits);
    assert index == [(kx, [RecordX]), (ky, [RecordY])];
    assert index[..1] == [(kx, [RecordX])] && index[..1][..0] == [];
    assert Plan(index[..1]) == [];
    assert Plan(index) == Plan(index[..1]) + GroupPlan(ky, [RecordY]);
  }

  /**
   * As written, both links resolve outside `.roo`, so both get the key `None`,
   * land in one group, and the plan copies the unrelated `/o/f2` over the link `x`.
   */
  lemma OutsideLinksShareNoneKey()
    ensures WalksTree(LinkedFs, LinkedListing, ScanRoot(Folder))
    ensures var hits := FolderScan(LinkedFs, Folder, LinkedListing, [], LinkedResolve);
      && |hits| == 2 && hits[0].key == None && hits[1].key == None
      && hits[0].record.path != hits[1].record.path
      && Plan(BuildIndex(hits)) == [CopyAction(None, hits[1].record, hits[0].record)]
  {
    Walked();
    Scan();
    PlanOneGroup(None);
  }

  lemma IntendedItemHits()
    ensures IntendedItemHit(LinkedFs, Folder, RelX, [], LinkedResolve) == Some(Hit(Some("x"), RecordX))
    ensures IntendedItemHit(LinkedFs, Folder, RelY, [], LinkedResolve) == Some(Hit(Some("y"), RecordY))
  {
    ItemHits();
    assert Text.Join(RelX, "/") == "x" && Text.Join(RelY, "/") == "y";
  }

  lemma IntendedFirstHit()
    ensures IntendedFolderHits(LinkedFs, Folder, First, [], LinkedResolve) == [Hit(Some("x"), RecordX)]
  {
    IntendedItemHits();
    assert First[..0] == [] && First[0] == RelX;
  }

  lemma IntendedHits()
    ensures IntendedFolderHits(LinkedFs, Folder, Walk, [], LinkedResolve) == [Hit(Some("x"), RecordX), Hit(Some("y"), RecordY)]
  {
    IntendedItemHits();
    IntendedFirstHit();
    assert Walk[..1] == First && Walk[1] == RelY;
    assert IntendedFolderHits(LinkedFs, Folder, Walk, [], LinkedResolve)
      == IntendedFolderHits(LinkedFs, Folder, First, [], LinkedResolve) + OptionSeq(IntendedItemHit(LinkedFs, Folder, RelY, [], LinkedResolve));
  }

  /** With the intended key the two links are filed as `x` and `y`, and nothing is copied. */
  lemma OutsideLinksKeptApart()
    ensures var hits := IntendedFolderHits(LinkedFs, Folder, LinkedListing(ScanRoot(Folder)), [], LinkedResolve);
      && |hits| == 2 && hits[0].key == Some("x") && hits[1].key == Some("y")
      && Plan(BuildIndex(hits)) == []
  {
    Layout();
    IntendedHits();
    PlanTwoGroups(Some("x"), Some("y"));
  }
}
