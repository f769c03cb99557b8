/** Path resolution over directories on the disk: FS_PathParse, FS_PathDepth and FS_SearchFile (fs/fs.c:231-338),
    the lookup under them (fs/dir.c:69-134) and the depth test of sys_open (fs/file.c:228-237). Strings are the
    characters before the terminating zero, a pointer into a string is the rest of it.

    Repaired: strcat puts its text at the start of the target (lib/string.c:80-92), where appending is
    meant; `DepthTestAsWrittenIff` says what the depth test is worth with it. Dir_Open is given the
    root directory for a partition (fs.c:314); here it opens the directory it names
    (`DirOpenIsRightIff`). The buffer for addresses starts cleared, which sys_malloc does
    not see to (dir.c:74; `SearchIsRightIff`). */
module PathSearch {
  import opened Common
  import opened Words
  import opened DiskModel
  import IT = InodeTable
  import FB = FileBlocks

  // ---------------------------------------------------------------- names of a path

  /** The pieces between slashes, empty ones included. */
  function Split(path: string): (r: seq<string>)
    ensures r != []
  {
    if path == "" then [""]
    else
      var rest := Split(path[1..]);
      if path[0] == '/' then [""] + rest else [[path[0]] + rest[0]] + rest[1..]
  }

  function NonEmpty(pieces: seq<string>): seq<string> {
    if pieces == [] then []
    else (if pieces[0] == "" then [] else [pieces[0]]) + NonEmpty(pieces[1..])
  }

  /** The components of a path: its non-empty pieces. */
  function Names(path: string): seq<string> {
    NonEmpty(Split(path))
  }

  predicate NoSlash(s: string) {
    forall i :: 0 <= i < |s| ==> s[i] != '/'
  }

  lemma {:induction false} SplitName(name: string, rest: string)
    requires NoSlash(name) && (rest == "" || rest[0] == '/')
    ensures Split(name + rest) == [name + Split(rest)[0]] + Split(rest)[1..]
  {
    if name == "" {
      assert name + rest == rest;
    } else {
      assert (name + rest)[1..] == name[1..] + rest;
      SplitName(name[1..], rest);
      assert [name[0]] + (name[1..] + Split(rest)[0]) == name + Split(rest)[0];
    }
  }

  /** A name in front of the end or of a slash is the first component. */
  lemma NamesOfName(name: string, rest: string)
    requires NoSlash(name) && name != "" && (rest == "" || rest[0] == '/')
    ensures Names(name + rest) == [name] + Names(rest)
  {
    SplitName(name, rest);
    assert Split(rest)[0] == "" && name + "" == name;
    assert Split(rest) == [""] + Split(rest)[1..];
  }

  lemma NamesAfterSlash(path: string)
    requires path != "" && path[0] == '/'
    ensures Names(path) == Names(path[1..])
  {
    assert ([""] + Split(path[1..]))[1..] == Split(path[1..]);
  }

  lemma NoNames()
    ensures Names("") == []
  {
  }

  /** FS_PathParse: what it stores as name, and where it stops. The buffer holds 16 characters, the last
      of which has to stay zero. */
  method PathParse(path: string) returns (rest: Option<string>, name: string)
    ensures name == "" <==> Names(path) == []
    ensures name != "" ==> Names(path) == [name] + (if rest.Some? then Names(rest.value) else [])
    ensures name != "" && rest.Some? ==> |rest.value| < |path|
    ensures NoSlash(name)
  {
    hide Names;
    NoNames();
    var i := 0;
    assert path[0..] == path;
    if path != "" && path[0] == '/' {
      while i < |path| && path[i] == '/'
        invariant 0 <= i <= |path| && Names(path) == Names(path[i..])
      {
        NamesAfterSlash(path[i..]);
        assert path[i..][1..] == path[i + 1..];
        i := i + 1;
      }
    }
    name := "";
    ghost var start := i;
    while i < |path| && path[i] != '/'
      invariant start <= i <= |path| && name == path[start..i] && NoSlash(name)
    {
      name := name + [path[i]];
      i := i + 1;
    }
    assert path[start..] == name + path[i..];
    if name != "" { NamesOfName(name, path[i..]); }
    if i == |path| {
      assert path[i..] == "";
      return None, name;
    }
    rest := Some(path[i..]);
  }

  /** FS_PathDepth: the number of components, whatever the slashes. */
  method PathDepth(path: string) returns (depth: nat)
    ensures depth == |Names(path)|
  {
    var rest, name := PathParse(path);
    depth := 0;
    while name != ""
      invariant |Names(path)| == depth + if name == "" then 0 else 1 + if rest.Some? then |Names(rest.value)| else 0
      decreases if name == "" then 0 else 1 + if rest.Some? then |rest.value| + 1 else 0
    {
      depth := depth + 1;
      name := "";
      if rest.Some? { rest, name := PathParse(rest.value); }
    }
  }

  /** The canonical path of a list of names. */
  function Canonical(names: seq<string>): string {
    if names == [] then "" else "/" + names[0] + Canonical(names[1..])
  }

  predicate AreNames(names: seq<string>) {
    forall i :: 0 <= i < |names| ==> names[i] != "" && NoSlash(names[i])
  }

  lemma {:induction false} NamesOfCanonical(names: seq<string>)
    requires AreNames(names)
    ensures Names(Canonical(names)) == names
  {
    hide Names;
    if names == [] {
      NoNames();
      assert Canonical(names) == "";
    } else {
      var rest := Canonical(names[1..]);
      NamesOfCanonical(names[1..]);
      NamesOfName(names[0], rest);
      NamesAfterSlash(Canonical(names));
      assert Canonical(names)[1..] == names[0] + rest;
    }
  }

  lemma {:induction false} CanonicalAppend(names: seq<string>, name: string)
    ensures Canonical(names + [name]) == Canonical(names) + "/" + name
  {
    if names == [] {
      assert Canonical([name]) == "/" + name + Canonical([name][1..]);
    } else {
      assert (names + [name])[1..] == names[1..] + [name];
      CanonicalAppend(names[1..], name);
    }
  }

  lemma {:induction false} SplitNoSlash(path: string)
    ensures forall i :: 0 <= i < |Split(path)| ==> NoSlash(Split(path)[i])
  {
    if path != "" { SplitNoSlash(path[1..]); }
  }

  lemma {:induction false} NonEmptyAre(pieces: seq<string>)
    requires forall i :: 0 <= i < |pieces| ==> NoSlash(pieces[i])
    ensures AreNames(NonEmpty(pieces))
  {
    if pieces != [] { NonEmptyAre(pieces[1..]); }
  }

  lemma NamesAreNames(path: string)
    ensures AreNames(Names(path))
  {
    SplitNoSlash(path);
    NonEmptyAre(Split(path));
  }

  // ---------------------------------------------------------------- directories

  /** As on the disk: 0, 1 and 2. */
  datatype FileType = Unknown | Regular | Directory
  datatype DirEntry = DirEntry(fileName: string, iNo: nat, fileType: FileType)

  const ENTRIES_PER_SECTOR := 512 / 24
  const MAX_ALL_BLOCK := 12 + 128

  type Block = b: seq<DirEntry> | |b| == ENTRIES_PER_SECTOR
    witness seq(ENTRIES_PER_SECTOR, _ => DirEntry("", 0, Unknown))

  /** The entries of a directory, block after block; a block address of 0 is skipped. */
  function Listed(blocks: seq<Option<Block>>): seq<DirEntry> {
    if blocks == [] then []
    else (if blocks[0].Some? then blocks[0].value else []) + Listed(blocks[1..])
  }

  /** The first entry of that name. */
  function Lookup(entries: seq<DirEntry>, name: string): (r: Option<DirEntry>)
    ensures r.Some? ==> r.value in entries && r.value.fileName == name
    ensures r.None? <==> forall i :: 0 <= i < |entries| ==> entries[i].fileName != name
  {
    if entries == [] then None
    else if entries[0].fileName == name then Some(entries[0])
    else Lookup(entries[1..], name)
  }

  lemma {:induction false} LookupInBoth(a: seq<DirEntry>, b: seq<DirEntry>, name: string)
    ensures Lookup(a + b, name) == if Lookup(a, name).Some? then Lookup(a, name) else Lookup(b, name)
  {
    if a == [] {
      assert a + b == b;
    } else {
      assert (a + b)[1..] == a[1..] + b;
      LookupInBoth(a[1..], b, name);
    }
  }

  lemma {:induction false} ListedUpTo(blocks: seq<Option<Block>>, k: nat)
    requires k < |blocks|
    ensures Listed(blocks[..k + 1]) == Listed(blocks[..k]) + if blocks[k].Some? then blocks[k].value else []
  {
    if k == 0 {
      assert blocks[..1][1..] == [] && blocks[..0] == [];
    } else {
      ListedUpTo(blocks[1..], k - 1);
      assert blocks[..k + 1][1..] == blocks[1..][..k] && blocks[..k][1..] == blocks[1..][..k - 1];
    }
  }

  lemma NothingListed(blocks: seq<Option<Block>>)
    ensures Listed(blocks[..0]) == []
  {
  }

  /** The inner loop of Dir_SearchDirEntry: one sector. */
  method SearchSector(buf: Block, name: string) returns (entry: Option<DirEntry>)
    ensures entry == Lookup(buf, name)
  {
    var dirEntryIndex := 0;
    while dirEntryIndex < ENTRIES_PER_SECTOR
      invariant 0 <= dirEntryIndex <= ENTRIES_PER_SECTOR
      invariant Lookup(buf, name) == Lookup(buf[dirEntryIndex..], name)
    {
      if buf[dirEntryIndex].fileName == name { return Some(buf[dirEntryIndex]); }
      assert buf[dirEntryIndex..][1..] == buf[dirEntryIndex + 1..];
      dirEntryIndex := dirEntryIndex + 1;
    }
    entry := None;
  }

  // ---------------------------------------------------------------- directories on the disk

  const ENTRY := 24
  const NAME := 16

  /** The C string in a field. */
  function NameOf(bytes: seq<Byte>): string {
    if bytes == [] || bytes[0] == 0 then "" else [bytes[0] as char] + NameOf(bytes[1..])
  }

  function TypeOf(w: U32): FileType {
    if w == 1 then Regular else if w == 2 then Directory else Unknown
  }

  /** Name, inode number, type. */
  function DecodeEntry(bytes: seq<Byte>): DirEntry
    requires |bytes| == ENTRY
  {
    DirEntry(NameOf(bytes[..NAME]), GetWords(bytes[NAME..])[0], TypeOf(GetWords(bytes[NAME..])[1]))
  }

  function DecodeBlock(sector: Sector): Block {
    seq(ENTRIES_PER_SECTOR, k requires 0 <= k < ENTRIES_PER_SECTOR => DecodeEntry(sector[ENTRY * k..ENTRY * k + ENTRY]))
  }

  /** All addresses of an inode lead to sectors. */
  ghost predicate DirReadable(d: map<nat, Sector>, i: IT.Inode) {
    && IT.Shaped(i)
    && (i.iSectors[FB.DIRECT] != 0 ==> i.iSectors[FB.DIRECT] in d && i.iSectors[FB.DIRECT] <= MAX_LBA)
    && forall b :: 0 <= b < MAX_ALL_BLOCK && FB.AllOf(d, i.iSectors)[b] != 0 ==>
         FB.AllOf(d, i.iSectors)[b] in d && FB.AllOf(d, i.iSectors)[b] <= MAX_LBA
  }

  function BlockAt(d: map<nat, Sector>, lba: nat): Option<Block> {
    if lba != 0 && lba in d then Some(DecodeBlock(d[lba])) else None
  }

  /** The blocks at a list of addresses. */
  function BlocksAt(d: map<nat, Sector>, addresses: seq<U32>): (r: seq<Option<Block>>)
    ensures |r| == |addresses|
  {
    seq(|addresses|, b requires 0 <= b < |addresses| => BlockAt(d, addresses[b]))
  }

  /** The blocks of a directory, direct ones and those in the table. */
  function BlocksOf(d: map<nat, Sector>, i: IT.Inode): (r: seq<Option<Block>>)
    requires IT.Shaped(i)
    ensures |r| == MAX_ALL_BLOCK
  {
    BlocksAt(d, FB.AllOf(d, i.iSectors))
  }

  /** The addresses to go through (dir.c:82-93). */
  method ReadAddresses(disk: Disk, dir: IT.Inode) returns (allBlocks: seq<U32>)
    requires DirReadable(disk.sectors, dir)
    ensures allBlocks == FB.AllOf(disk.sectors, dir.iSectors)
  {
    allBlocks := dir.iSectors[..FB.DIRECT] + seq(FB.INDIRECT, _ => 0);
    if dir.iSectors[FB.DIRECT] != 0 {
      var table := disk.Read(dir.iSectors[FB.DIRECT], 1);
      assert table == disk.sectors[dir.iSectors[FB.DIRECT]];
      allBlocks := dir.iSectors[..FB.DIRECT] + GetWords(table);
    }
  }

  /** Dir_SearchDirEntry: the first entry of that name, in the order of the blocks. */
  method SearchDirEntry(disk: Disk, dir: IT.Inode, name: string) returns (entry: Option<DirEntry>)
    requires DirReadable(disk.sectors, dir)
    ensures entry == Lookup(Listed(BlocksOf(disk.sectors, dir)), name)
  {
    hide Listed, Lookup, DecodeBlock;
    ghost var blocks := BlocksOf(disk.sectors, dir);
    NothingListed(blocks);
    NothingFound(name);
    var allBlocks := ReadAddresses(disk, dir);
    var blockIndex := 0;
    while blockIndex < MAX_ALL_BLOCK
      invariant 0 <= blockIndex <= MAX_ALL_BLOCK
      invariant Lookup(Listed(blocks[..blockIndex]), name).None?
    {
      ListedUpTo(blocks, blockIndex);
      if allBlocks[blockIndex] != 0 {
        var buf := disk.Read(allBlocks[blockIndex], 1);
        assert buf == disk.sectors[allBlocks[blockIndex]];
        assert blocks[blockIndex] == Some(DecodeBlock(buf));
        LookupInBoth(Listed(blocks[..blockIndex]), DecodeBlock(buf), name);
        entry := SearchSector(DecodeBlock(buf), name);
        if entry.Some? {
          FoundInPart(blocks, blockIndex + 1, name);
          return;
        }
      } else {
        assert blocks[blockIndex] == None;
        assert Listed(blocks[..blockIndex]) + [] == Listed(blocks[..blockIndex]);
      }
      blockIndex := blockIndex + 1;
    }
    assert blocks[..MAX_ALL_BLOCK] == blocks;
    entry := None;
  }

  lemma NothingFound(name: string)
    ensures Lookup([], name).None?
  {
  }

  lemma {:induction false} ListedBoth(a: seq<Option<Block>>, b: seq<Option<Block>>)
    ensures Listed(a + b) == Listed(a) + Listed(b)
  {
    if a == [] {
      assert a + b == b;
    } else {
      assert (a + b)[1..] == a[1..] + b;
      ListedBoth(a[1..], b);
    }
  }

  lemma FoundInPart(blocks: seq<Option<Block>>, k: nat, name: string)
    requires k <= |blocks| && Lookup(Listed(blocks[..k]), name).Some?
    ensures Lookup(Listed(blocks), name) == Lookup(Listed(blocks[..k]), name)
  {
    assert blocks[..k] + blocks[k..] == blocks;
    ListedBoth(blocks[..k], blocks[k..]);
    LookupInBoth(Listed(blocks[..k]), Listed(blocks[k..]), name);
  }

  // ---------------------------------------------------------------- the search

  /** Directories by inode number. */
  type Tree = map<nat, seq<Option<Block>>>

  function Entries(tree: Tree, dir: nat): seq<DirEntry> {
    if dir in tree then Listed(tree[dir]) else []
  }

  /** What every record of the inode table, which starts at `table`, would be as a directory. */
  function TreeOf(d: map<nat, Sector>, table: nat): Tree
    requires Covers(d, table, IT.TABLE_SECTS)
  {
    map no: nat | no < IT.INODES :: BlocksOf(d, IT.Stored(d, table, no))
  }

  /** The directories on the disk, as a tree. */
  ghost predicate IsTree(d: map<nat, Sector>, table: nat, tree: Tree) {
    table + IT.TABLE_SECTS <= MAX_LBA && Covers(d, table, IT.TABLE_SECTS) && tree == TreeOf(d, table)
  }

  /** The tree walk: the directory that a list of names leads to, if they all are directories. */
  function Reach(tree: Tree, dir: nat, names: seq<string>): Option<nat>
    decreases |names|
  {
    if names == [] then Some(dir)
    else match Lookup(Entries(tree, dir), names[0])
      case Some(DirEntry(_, iNo, Directory)) => Reach(tree, iNo, names[1..])
      case _ => None
  }

  lemma {:induction false} ReachAppend(tree: Tree, dir: nat, names: seq<string>, name: string)
    ensures Reach(tree, dir, names + [name])
              == match Reach(tree, dir, names)
                 case None => None
                 case Some(d) =>
                   match Lookup(Entries(tree, d), name)
                   case Some(DirEntry(_, iNo, Directory)) => Some(iNo)
                   case _ => None
    decreases |names|
  {
    if names == [] {
      assert ([] + [name])[0] == name && ([] + [name])[1..] == [];
    } else {
      assert (names + [name])[0] == names[0] && (names + [name])[1..] == names[1..] + [name];
      match Lookup(Entries(tree, dir), names[0]) {
        case Some(DirEntry(_, iNo, Directory)) => ReachAppend(tree, iNo, names[1..], name);
        case _ =>
      }
    }
  }

  /** If a prefix leads nowhere, so does the whole. */
  lemma {:induction false} ReachPrefix(tree: Tree, dir: nat, names: seq<string>, k: nat)
    requires k <= |names| && Reach(tree, dir, names[..k]).None?
    ensures Reach(tree, dir, names).None?
    decreases |names| - k
  {
    if k == |names| {
      assert names[..k] == names;
    } else {
      ReachAppend(tree, dir, names[..k], names[k]);
      assert names[..k + 1] == names[..k] + [names[k]];
      ReachPrefix(tree, dir, names, k + 1);
    }
  }

  /** Under names that a path can have, a directory has entries of files and directories only (the callers of
      Dir_CreateDirEntry). */
  ghost predicate Typed(tree: Tree, dir: nat) {
    forall name {:trigger Lookup(Entries(tree, dir), name)} ::
      name != "" && NoSlash(name) && Lookup(Entries(tree, dir), name).Some? ==>
        Lookup(Entries(tree, dir), name).value.fileType != Unknown
  }

  /** A directory that can be opened and read. */
  ghost predicate DirOk(d: map<nat, Sector>, table: nat, tree: Tree, dir: nat)
    requires Covers(d, table, IT.TABLE_SECTS)
  {
    dir < IT.INODES && DirReadable(d, IT.Stored(d, table, dir)) && Typed(tree, dir)
  }

  /** Every directory that can be reached from the root is one. Nothing is asked of regular files and of records not
      in use, whose bytes may be anything. */
  ghost predicate SoundFrom(d: map<nat, Sector>, table: nat, tree: Tree, root: nat)
    requires Covers(d, table, IT.TABLE_SECTS)
  {
    forall names: seq<string> {:trigger Reach(tree, root, names)} ::
      AreNames(names) && Reach(tree, root, names).Some? ==> DirOk(d, table, tree, Reach(tree, root, names).value)
  }

  /** The tree on the disk with its root. */
  ghost predicate OnDisk(d: map<nat, Sector>, table: nat, tree: Tree, root: nat) {
    IsTree(d, table, tree) && SoundFrom(d, table, tree, root)
  }

  lemma ReachedIsOk(d: map<nat, Sector>, table: nat, tree: Tree, root: nat, names: seq<string>, dir: nat)
    requires OnDisk(d, table, tree, root) && AreNames(names) && Reach(tree, root, names) == Some(dir)
    ensures Covers(d, table, IT.TABLE_SECTS) && DirOk(d, table, tree, dir)
  {
  }

  predicate IsRootPath(path: string) {
    path == "/" || path == "/." || path == "/.."
  }

  datatype SearchRecord = SearchRecord(searchedRecord: string, parentDir: nat, fileType: FileType)

  /** The outcome of a search for a list of names, by the tree walk: how many names were visited, and
      what the last of them is in the directory before it. */
  ghost predicate Searched(tree: Tree, root: nat, names: seq<string>, visited: seq<string>, inodeNo: int,
                           rec: SearchRecord) {
    && visited != [] && visited <= names && rec.searchedRecord == Canonical(visited)
    && Reach(tree, root, visited[..|visited| - 1]) == Some(rec.parentDir)
    && (match Lookup(Entries(tree, rec.parentDir), visited[|visited| - 1])
        case None => inodeNo == -1 && rec.fileType == Unknown
        case Some(entry) => inodeNo == entry.iNo && rec.fileType == entry.fileType
                            && (entry.fileType == Directory ==> visited == names))
  }

  /** Underway: all names visited were directories; `grand` and `last` are the directory that holds the
      last of them and its number. */
  ghost predicate Walking(tree: Tree, root: nat, names: seq<string>, visited: seq<string>,
                          parentDir: nat, grand: nat, last: nat, rec: SearchRecord) {
    && visited <= names && rec.searchedRecord == Canonical(visited)
    && rec.parentDir == parentDir && rec.fileType == Unknown
    && Reach(tree, root, visited) == Some(parentDir)
    && (visited != [] ==>
          && Reach(tree, root, visited[..|visited| - 1]) == Some(grand)
          && Lookup(Entries(tree, grand), visited[|visited| - 1])
               == Some(DirEntry(visited[|visited| - 1], last, Directory)))
  }

  lemma WalkStarts(tree: Tree, root: nat, names: seq<string>)
    ensures Walking(tree, root, names, [], root, 0, 0, SearchRecord("", root, Unknown))
  {
  }

  lemma WalkStep(tree: Tree, root: nat, names: seq<string>, visited: seq<string>, name: string,
                 parentDir: nat, grand: nat, last: nat, rec: SearchRecord)
    requires Walking(tree, root, names, visited, parentDir, grand, last, rec)
    requires |visited| < |names| && names[|visited|] == name
    ensures var found, v := Lookup(Entries(tree, parentDir), name), visited + [name];
            var r := rec.(searchedRecord := rec.searchedRecord + "/" + name);
            match found
            case None => Searched(tree, root, names, v, -1, r)
            case Some(DirEntry(_, iNo, Regular)) => Searched(tree, root, names, v, iNo, r.(fileType := Regular))
            case Some(DirEntry(_, iNo, Directory)) =>
              Walking(tree, root, names, v, iNo, parentDir, iNo, r.(parentDir := iNo))
            case _ => true
  {
    hide Canonical, Reach, Listed, Entries;
    CanonicalAppend(visited, name);
    ReachAppend(tree, root, visited, name);
    var v := visited + [name];
    assert v[..|v| - 1] == visited && v[|v| - 1] == name && v <= names;
  }

  lemma WalkedTo(d: map<nat, Sector>, table: nat, tree: Tree, root: nat, names: seq<string>, visited: seq<string>,
                 parentDir: nat, grand: nat, last: nat, rec: SearchRecord)
    requires OnDisk(d, table, tree, root) && AreNames(names) && |visited| < |names|
    requires Walking(tree, root, names, visited, parentDir, grand, last, rec)
    ensures Covers(d, table, IT.TABLE_SECTS) && DirOk(d, table, tree, parentDir) && IsTree(d, table, tree)
    ensures var found := Lookup(Entries(tree, parentDir), names[|visited|]);
            found.Some? ==> found.value.fileType != Unknown
  {
    hide Reach, Entries, Lookup, Canonical;
    ReachedIsOk(d, table, tree, root, visited, parentDir);
    assert names[|visited|] != "" && NoSlash(names[|visited|]);
  }

  lemma WalkEnds(tree: Tree, root: nat, names: seq<string>, parentDir: nat, grand: nat, last: nat, rec: SearchRecord)
    requires names != [] && Walking(tree, root, names, names, parentDir, grand, last, rec)
    ensures Searched(tree, root, names, names, last, rec.(parentDir := grand, fileType := Directory))
  {
  }

  /** The names that a component and the rest of the path behind it give. */
  function Ahead(name: string, rest: Option<string>): seq<string> {
    if name == "" then [] else [name] + if rest.Some? then Names(rest.value) else []
  }

  lemma AllAhead(names: seq<string>, path: string, name: string, rest: Option<string>)
    requires names == Names(path) && (name == "" <==> names == [])
    requires name != "" ==> names == [name] + (if rest.Some? then Names(rest.value) else [])
    ensures names == [] + Ahead(name, rest)
  {
    hide Names;
  }

  lemma NextIsName(names: seq<string>, visited: seq<string>, name: string, rest: Option<string>)
    requires names == visited + Ahead(name, rest) && name != ""
    ensures |visited| < |names| && names[|visited|] == name
  {
    hide Names;
  }

  /** After one more PathParse. */
  lemma AheadNext(names: seq<string>, before: seq<string>, parsed: string, left: Option<string>, name: string,
                  rest: Option<string>)
    requires names == before + Ahead(parsed, left) && parsed != ""
    requires left.None? ==> name == ""
    requires left.Some? ==> (name == "" <==> Names(left.value) == [])
    requires left.Some? && name != "" ==> Names(left.value) == [name] + (if rest.Some? then Names(rest.value) else [])
    ensures names == before + [parsed] + Ahead(name, rest)
  {
    hide Names;
    var tail := if left.Some? then Names(left.value) else [];
    assert Ahead(name, rest) == tail;
    hide Ahead;
    assert before + ([parsed] + tail) == before + [parsed] + tail;
  }

  lemma NothingAhead(names: seq<string>, visited: seq<string>, rest: Option<string>)
    requires names == visited + Ahead("", rest)
    ensures visited == names
  {
  }

  /** FS_SearchFile behind its special cases. */
  method SearchNames(disk: Disk, table: nat, ghost tree: Tree, root: nat, path: string)
      returns (inodeNo: int, rec: SearchRecord, ghost visited: seq<string>)
    requires OnDisk(disk.sectors, table, tree, root)
    ensures Names(path) == [] ==> inodeNo == 0 && rec == SearchRecord("", 0, Directory)
    ensures Names(path) != [] ==> Searched(tree, root, Names(path), visited, inodeNo, rec)
  {
    hide OnDisk, DirOk, Names, Ahead, Walking, Searched, Lookup, Listed, Reach, Canonical, Entries;
    ghost var names := Names(path);
    NamesAreNames(path);
    var parentDir: nat, parentInodeNo: nat, dirEntryNo: nat := root, 0, 0;
    rec := SearchRecord("", parentDir, Unknown);
    visited := [];
    WalkStarts(tree, root, names);
    var rest, name := PathParse(path);
    AllAhead(names, path, name, rest);
    while name != ""
      invariant names == visited + Ahead(name, rest)
      invariant Walking(tree, root, names, visited, parentDir, parentInodeNo, dirEntryNo, rec)
      invariant visited == [] ==> parentInodeNo == 0 && dirEntryNo == 0 && rec == SearchRecord("", root, Unknown)
      decreases if name == "" then 0 else 1 + if rest.Some? then |rest.value| + 1 else 0
    {
      NextIsName(names, visited, name, rest);
      WalkedTo(disk.sectors, table, tree, root, names, visited, parentDir, parentInodeNo, dirEntryNo, rec);
      WalkStep(tree, root, names, visited, name, parentDir, parentInodeNo, dirEntryNo, rec);
      ghost var before := visited;
      visited := visited + [name];
      rec := rec.(searchedRecord := rec.searchedRecord + "/" + name);
      var entry := SearchDirectory(disk, table, tree, parentDir, name);
      if entry.None? { return -1, rec, visited; }
      dirEntryNo := entry.value.iNo;
      if entry.value.fileType == Directory {
        parentInodeNo := parentDir;
        parentDir := dirEntryNo;
        rec := rec.(parentDir := parentDir);
      } else if entry.value.fileType == Regular {
        return dirEntryNo, rec.(fileType := Regular), visited;
      }
      ghost var parsed, left := name, rest;
      name := "";
      if rest.Some? { rest, name := PathParse(rest.value); }
      AheadNext(names, before, parsed, left, name, rest);
    }
    NothingAhead(names, visited, rest);
    if names != [] { WalkEnds(tree, root, names, parentDir, parentInodeNo, dirEntryNo, rec); }
    rec := rec.(parentDir := parentInodeNo, fileType := Directory);
    inodeNo := dirEntryNo;
  }

  /** FS_SearchFile. Three spellings of the root are answered at once; a path of slashes only gives inode 0
      as well. For all others the record names the components visited, and the directory that would hold
      the last of them ends up in `parentDir`, whether or not it was found. */
  method SearchFile(disk: Disk, table: nat, ghost tree: Tree, root: nat, path: string)
      returns (inodeNo: int, rec: SearchRecord)
    requires OnDisk(disk.sectors, table, tree, root)
    requires path != "" && path[0] == '/'  // asserted at fs.c:286
    ensures IsRootPath(path) ==> inodeNo == root && rec == SearchRecord("", root, Directory)
    ensures !IsRootPath(path) && Names(path) == [] ==> inodeNo == 0 && rec == SearchRecord("", 0, Directory)
    ensures !IsRootPath(path) && Names(path) != [] ==>
              Searched(tree, root, Names(path), Names(rec.searchedRecord), inodeNo, rec)
  {
    if path == "/" || path == "/." || path == "/.." {
      return root, SearchRecord("", root, Directory);
    }
    hide OnDisk, Reach, Entries, Lookup, Canonical, Names, Searched;
    ghost var visited;
    inodeNo, rec, visited := SearchNames(disk, table, tree, root, path);
    if Names(path) != [] { RecordNames(tree, root, path, visited, inodeNo, rec); }
  }

  /** The names visited are those of the path recorded. */
  lemma RecordNames(tree: Tree, root: nat, path: string, visited: seq<string>, inodeNo: int, rec: SearchRecord)
    requires Searched(tree, root, Names(path), visited, inodeNo, rec)
    ensures Names(rec.searchedRecord) == visited
  {
    NamesAreNames(path);
    hide Names, Canonical, Reach, Entries, Lookup;
    NamesOfCanonical(visited);
  }

  /** The lookup in a directory given by number: Inode_Open of its record, then the entries. */
  method SearchDirectory(disk: Disk, table: nat, ghost tree: Tree, dir: nat, name: string)
      returns (entry: Option<DirEntry>)
    requires IsTree(disk.sectors, table, tree) && DirOk(disk.sectors, table, tree, dir)
    ensures entry == Lookup(Entries(tree, dir), name)
  {
    hide DirReadable;
    var inode := IT.Read(disk, table, dir);
    entry := SearchDirEntry(disk, inode, name);
  }

  /** What sys_open concludes from comparing depths (file.c:228-237): they agree exactly if every name
      before the last leads to a directory. Then the search has looked for the last name in the right
      directory, and found it or not. */
  lemma DepthTestIff(tree: Tree, root: nat, names: seq<string>, visited: seq<string>, inodeNo: int, rec: SearchRecord)
    requires AreNames(names) && names != [] && Searched(tree, root, names, visited, inodeNo, rec)
    ensures Names(rec.searchedRecord) == visited
    ensures |Names(rec.searchedRecord)| == |names| <==> Reach(tree, root, names[..|names| - 1]).Some?
    ensures |Names(rec.searchedRecord)| == |names| ==>
              && Reach(tree, root, names[..|names| - 1]) == Some(rec.parentDir)
              && (inodeNo == -1 <==> Lookup(Entries(tree, rec.parentDir), names[|names| - 1]).None?)
  {
    hide Names, Canonical, Reach, Listed, Entries;
    NamesOfCanonical(visited);
    var k := |visited|;
    if k == |names| {
      assert visited == names;
    } else {
      ReachAppend(tree, root, visited[..k - 1], visited[k - 1]);
      assert visited[..k - 1] + [visited[k - 1]] == visited == names[..|names| - 1][..k];
      ReachPrefix(tree, root, names[..|names| - 1], k);
    }
  }

  /** What sys_open does with a path: refuse it, open what is there, or (with O_CREAT) create it in a
      directory. */
  datatype Target = Refused | Found(inodeNo: nat) | Missing(parentDir: nat)

  /** By the tree walk: a name at the end of a path of directories, that is not a directory itself. */
  function OpenByWalk(tree: Tree, root: nat, path: string): Target
    requires path != ""
  {
    var names := Names(path);
    if path[|path| - 1] == '/' || names == [] || IsRootPath(path) then Refused
    else match Reach(tree, root, names[..|names| - 1])
      case None => Refused
      case Some(dir) =>
        match Lookup(Entries(tree, dir), names[|names| - 1])
        case None => Missing(dir)
        case Some(entry) => if entry.fileType == Directory then Refused else Found(entry.iNo)
  }

  /** The checks of sys_open (file.c:200-252): the search and the comparison of depths come to what the
      tree walk says, for every path. */
  method OpenTarget(disk: Disk, table: nat, ghost tree: Tree, root: nat, path: string) returns (target: Target)
    requires OnDisk(disk.sectors, table, tree, root)
    requires path != "" && path[0] == '/'
    ensures target == OpenByWalk(tree, root, path)
  {
    hide OnDisk, Names, Canonical, Reach, Entries, Lookup;
    if path[|path| - 1] == '/' { return Refused; }
    var inodeNo, rec := SearchFile(disk, table, tree, root, path);
    if rec.fileType == Directory {
      if !IsRootPath(path) && Names(path) != [] { DirectoryFound(tree, root, path, inodeNo, rec); }
      return Refused;
    }
    NamesAreNames(path);
    DepthTestIff(tree, root, Names(path), Names(rec.searchedRecord), inodeNo, rec);
    var searched := PathDepth(rec.searchedRecord);
    var depth := PathDepth(path);
    if searched != depth { return Refused; }
    FileFound(tree, root, path, inodeNo, rec);
    target := if inodeNo == -1 then Missing(rec.parentDir) else Found(inodeNo);
  }

  /** A directory at the end of the search ends the whole path. */
  lemma DirectoryFound(tree: Tree, root: nat, path: string, inodeNo: int, rec: SearchRecord)
    requires path != "" && Names(path) != [] && rec.fileType == Directory
    requires Searched(tree, root, Names(path), Names(rec.searchedRecord), inodeNo, rec)
    ensures OpenByWalk(tree, root, path) == Refused
  {
    hide Names, Canonical, Reach, Entries;
  }

  /** With equal depths the last name has been looked up in the directory before it. */
  lemma FileFound(tree: Tree, root: nat, path: string, inodeNo: int, rec: SearchRecord)
    requires path != "" && path[|path| - 1] != '/' && !IsRootPath(path) && Names(path) != []
    requires rec.fileType != Directory && |Names(rec.searchedRecord)| == |Names(path)|
    requires Searched(tree, root, Names(path), Names(rec.searchedRecord), inodeNo, rec)
    ensures OpenByWalk(tree, root, path) == if inodeNo == -1 then Missing(rec.parentDir) else Found(inodeNo)
    ensures inodeNo >= -1
  {
    hide Names, Canonical, Reach, Entries;
    assert Names(rec.searchedRecord) == Names(path);
  }

  lemma {:induction false} SameReach(tree: Tree, other: Tree, root: nat, names: seq<string>)
    requires forall dir {:trigger Entries(other, dir)} ::
               Reached(tree, root, dir) ==> Entries(other, dir) == Entries(tree, dir)
    ensures Reach(other, root, names) == Reach(tree, root, names)
    decreases |names|
  {
    if names != [] {
      var first := names[..|names| - 1];
      assert first + [names[|names| - 1]] == names;
      SameReach(tree, other, root, first);
      ReachAppend(tree, root, first, names[|names| - 1]);
      ReachAppend(other, root, first, names[|names| - 1]);
      if Reach(tree, root, first).Some? { assert Reached(tree, root, Reach(tree, root, first).value); }
    }
  }

  ghost predicate Reached(tree: Tree, root: nat, dir: nat) {
    exists names :: Reach(tree, root, names) == Some(dir)
  }

  /** What a path leads to is a matter of the directories that can be reached from the root, and of nothing else on
      the disk: the contents of regular files do not matter. */
  lemma OnlyDirectoriesMatter(tree: Tree, other: Tree, root: nat, path: string)
    requires path != ""
    requires forall dir {:trigger Entries(other, dir)} ::
               Reached(tree, root, dir) ==> Entries(other, dir) == Entries(tree, dir)
    ensures OpenByWalk(other, root, path) == OpenByWalk(tree, root, path)
  {
    hide Entries, Lookup, Names, Reach, Reached;
    var names := Names(path);
    if names != [] {
      var first := names[..|names| - 1];
      SameReach(tree, other, root, first);
      if Reach(tree, root, first).Some? { ReachedBy(tree, root, first); }
    }
  }

  lemma ReachedBy(tree: Tree, root: nat, names: seq<string>)
    requires Reach(tree, root, names).Some?
    ensures Reached(tree, root, Reach(tree, root, names).value)
  {
  }

  // ---------------------------------------------------------------- Dir_Open as written

  /** The walk when opening directory n leads to directory open(n). */
  function ReachVia(tree: Tree, open: nat -> nat, dir: nat, names: seq<string>): Option<nat>
    decreases |names|
  {
    if names == [] then Some(dir)
    else match Lookup(Entries(tree, dir), names[0])
      case Some(DirEntry(_, iNo, Directory)) => ReachVia(tree, open, open(iNo), names[1..])
      case _ => None
  }

  /** The same directories are visited after each name. */
  ghost predicate WalksAlike(tree: Tree, open: nat -> nat, root: nat, names: seq<string>) {
    forall k {:trigger names[..k]} :: 0 <= k <= |names| ==>
      ReachVia(tree, open, root, names[..k]) == Reach(tree, root, names[..k])
  }

  /** The text opens every directory but the root with the root directory's bytes for a partition (fs.c:314), so
      that what is opened is a matter of what they happen to be. Whatever they are, the search visits the right
      directories exactly if the first name is no directory in the root, and none is opened at all. */
  lemma DirOpenIsRightIff(tree: Tree, root: nat, names: seq<string>)
    requires names != []
    ensures (forall open: nat -> nat :: WalksAlike(tree, open, root, names))
            <==> !(Lookup(Entries(tree, root), names[0]).Some?
                   && Lookup(Entries(tree, root), names[0]).value.fileType == Directory)
  {
    var found := Lookup(Entries(tree, root), names[0]);
    if found.Some? && found.value.fileType == Directory {
      var open: nat -> nat := n => n + 1;
      var one := names[..1];
      assert one[0] == names[0] && one[1..] == [];
      assert ReachVia(tree, open, open(found.value.iNo), one[1..]) == Some(found.value.iNo + 1);
      assert ReachVia(tree, open, root, one) != Reach(tree, root, one);
      assert !WalksAlike(tree, open, root, names);
    } else {
      forall open: nat -> nat, k | 0 <= k <= |names|
        ensures ReachVia(tree, open, root, names[..k]) == Reach(tree, root, names[..k])
      {
        if k > 0 { assert names[..k][0] == names[0]; }
      }
    }
  }

  // ---------------------------------------------------------------- the address buffer as written

  /** The addresses to go through as dir.c:74-88 leaves them: without a table the buffer keeps behind the direct
      addresses what it held before, for sys_malloc does not clear. */
  function AddressesAsWritten(d: map<nat, Sector>, i: IT.Inode, stale: seq<U32>): seq<U32>
    requires IT.Shaped(i) && |stale| == FB.INDIRECT
  {
    if i.iSectors[FB.DIRECT] != 0 then FB.AllOf(d, i.iSectors) else i.iSectors[..FB.DIRECT] + stale
  }

  function FoundAsWritten(d: map<nat, Sector>, i: IT.Inode, stale: seq<U32>, name: string): Option<DirEntry>
    requires IT.Shaped(i) && |stale| == FB.INDIRECT
  {
    Lookup(Listed(BlocksAt(d, AddressesAsWritten(d, i, stale))), name)
  }

  function FoundAsMeant(d: map<nat, Sector>, i: IT.Inode, name: string): Option<DirEntry>
    requires IT.Shaped(i)
  {
    Lookup(Listed(BlocksOf(d, i)), name)
  }

  function FoundDirect(d: map<nat, Sector>, i: IT.Inode, name: string): Option<DirEntry>
    requires IT.Shaped(i)
  {
    Lookup(Listed(BlocksAt(d, i.iSectors[..FB.DIRECT])), name)
  }

  /** A name that fits into an entry. */
  predicate IsEntryName(name: string) {
    name != "" && |name| < NAME && forall i :: 0 <= i < |name| ==> 0 < name[i] as int < 256
  }

  /** A sector with one entry of that name. */
  function SectorNaming(name: string): Sector
    requires IsEntryName(name)
  {
    seq(SECTOR, k requires 0 <= k < SECTOR => if k < |name| then name[k] as int else 0)
  }

  lemma {:induction false} NameRead(bytes: seq<Byte>, name: string)
    requires |name| < |bytes| && bytes[|name|] == 0
    requires forall k :: 0 <= k < |name| ==> 0 < name[k] as int < 256 && bytes[k] == name[k] as int
    ensures NameOf(bytes) == name
  {
    if name != "" {
      NameRead(bytes[1..], name[1..]);
      assert bytes[0] as char == name[0] && name == [name[0]] + name[1..];
    }
  }

  lemma FirstEntryName(sector: Sector)
    ensures DecodeBlock(sector)[0].fileName == NameOf(sector[..NAME])
  {
    hide NameOf, GetWords, TypeOf;
    assert sector[ENTRY * 0..ENTRY * 0 + ENTRY][..NAME] == sector[..NAME];
  }

  lemma NamingIsFound(name: string)
    requires IsEntryName(name)
    ensures Lookup(DecodeBlock(SectorNaming(name)), name).Some?
  {
    hide NameOf, DecodeBlock, SectorNaming;
    var sector := SectorNaming(name);
    NamingBytes(name);
    NameRead(sector[..NAME], name);
    FirstEntryName(sector);
  }

  lemma NamingBytes(name: string)
    requires IsEntryName(name)
    ensures var bytes := SectorNaming(name)[..NAME];
            bytes[|name|] == 0 && forall k :: 0 <= k < |name| ==> bytes[k] == name[k] as int
  {
  }

  lemma BlocksAtBoth(d: map<nat, Sector>, a: seq<U32>, b: seq<U32>, name: string)
    ensures Lookup(Listed(BlocksAt(d, a + b)), name)
              == if Lookup(Listed(BlocksAt(d, a)), name).Some? then Lookup(Listed(BlocksAt(d, a)), name)
                 else Lookup(Listed(BlocksAt(d, b)), name)
  {
    assert BlocksAt(d, a + b) == BlocksAt(d, a) + BlocksAt(d, b);
    ListedBoth(BlocksAt(d, a), BlocksAt(d, b));
    LookupInBoth(Listed(BlocksAt(d, a)), Listed(BlocksAt(d, b)), name);
  }

  lemma {:induction false} NoBlocks(d: map<nat, Sector>, n: nat)
    ensures Listed(BlocksAt(d, seq(n, _ => 0))) == []
  {
    if n > 0 {
      NoBlocks(d, n - 1);
      assert BlocksAt(d, seq(n, _ => 0))[1..] == BlocksAt(d, seq(n - 1, _ => 0));
    }
  }

  lemma WithoutTable(d: map<nat, Sector>, i: IT.Inode, name: string)
    requires IT.Shaped(i) && i.iSectors[FB.DIRECT] == 0
    ensures FoundAsMeant(d, i, name) == FoundDirect(d, i, name)
  {
    var zeros := seq<U32>(FB.INDIRECT, _ => 0);
    NoBlocks(d, FB.INDIRECT);
    BlocksAtBoth(d, i.iSectors[..FB.DIRECT], zeros, name);
    assert FB.AllOf(d, i.iSectors) == i.iSectors[..FB.DIRECT] + zeros;
    NothingFound(name);
    hide Listed;
  }

  /** A stale address finds an entry that the directory does not have. */
  lemma StaleEntryFound(d: map<nat, Sector>, i: IT.Inode, stale: seq<U32>, name: string, x: U32)
    requires IT.Shaped(i) && i.iSectors[FB.DIRECT] == 0 && IsEntryName(name) && FoundDirect(d, i, name).None?
    requires |stale| == FB.INDIRECT && stale[0] == x != 0 && x in d && d[x] == SectorNaming(name)
    ensures FoundAsMeant(d, i, name).None? && FoundAsWritten(d, i, stale, name).Some?
  {
    WithoutTable(d, i, name);
    BlocksAtBoth(d, i.iSectors[..FB.DIRECT], stale, name);
    NamingIsFound(name);
    hide DecodeBlock, SectorNaming;
    var first := DecodeBlock(d[x]);
    assert BlocksAt(d, stale)[0] == Some(first);
    LookupInBoth(first, Listed(BlocksAt(d, stale)[1..]), name);
  }

  /** A directory without blocks, 7 left over in the buffer, and sector 7 with the bytes of an entry "a". */
  lemma StaleEntryExample(d: map<nat, Sector>, i: IT.Inode, stale: seq<U32>)
    requires i.iSectors == seq<U32>(IT.SLOTS, _ => 0) && |stale| == FB.INDIRECT && stale[0] == 7
    requires 7 in d && d[7] == SectorNaming("a")
    ensures FoundAsMeant(d, i, "a").None? && FoundAsWritten(d, i, stale, "a").Some?
  {
    NoBlocks(d, FB.DIRECT);
    assert i.iSectors[..FB.DIRECT] == seq<U32>(FB.DIRECT, _ => 0);
    NothingFound("a");
    StaleEntryFound(d, i, stale, "a", 7);
  }

  /** With these words in the buffer and this sector on the disk, the answer is the one that is meant. */
  predicate RightWith(d: map<nat, Sector>, i: IT.Inode, name: string, x: U32, stale: seq<U32>, content: Sector)
    requires IT.Shaped(i) && |stale| == FB.INDIRECT
  {
    FoundAsWritten(d[x := content], i, stale, name) == FoundAsMeant(d[x := content], i, name)
  }

  /** Whatever the buffer and a sector x outside the directory held before, the search is right exactly if the
      directory has a table or the name is in its direct blocks. */
  lemma SearchIsRightIff(d: map<nat, Sector>, i: IT.Inode, name: string, x: U32)
    requires IT.Shaped(i) && IsEntryName(name) && x != 0 && x !in i.iSectors
    ensures (forall stale: seq<U32>, content: Sector ::
               |stale| == FB.INDIRECT ==> RightWith(d, i, name, x, stale, content))
            <==> i.iSectors[FB.DIRECT] != 0 || FoundDirect(d, i, name).Some?
  {
    hide Listed, Lookup, DecodeBlock, SectorNaming;
    if i.iSectors[FB.DIRECT] == 0 {
      if FoundDirect(d, i, name).Some? {
        forall stale: seq<U32>, content: Sector | |stale| == FB.INDIRECT
          ensures RightWith(d, i, name, x, stale, content)
        {
          OtherSector(d, i, name, x, content);
          WithoutTable(d[x := content], i, name);
          BlocksAtBoth(d[x := content], i.iSectors[..FB.DIRECT], stale, name);
        }
      } else {
        var stale, content := seq<U32>(FB.INDIRECT, _ => x), SectorNaming(name);
        OtherSector(d, i, name, x, content);
        StaleEntryFound(d[x := content], i, stale, name, x);
        assert !RightWith(d, i, name, x, stale, content);
      }
    }
  }

  lemma OtherSector(d: map<nat, Sector>, i: IT.Inode, name: string, x: U32, content: Sector)
    requires IT.Shaped(i) && x !in i.iSectors
    ensures FoundDirect(d[x := content], i, name) == FoundDirect(d, i, name)
  {
    assert BlocksAt(d[x := content], i.iSectors[..FB.DIRECT]) == BlocksAt(d, i.iSectors[..FB.DIRECT]);
  }

  // ---------------------------------------------------------------- directories as bytes

  /** A number in four bytes, low byte first. */
  function FourBytes(x: U32): seq<Byte> {
    [x % 256, x / 256 % 256, x / 65536 % 256, x / 16777216]
  }

  /** How the file types are numbered (fs/fs.h:34-41). */
  function TypeNumber(t: FileType): U32 {
    match t
    case Unknown => 0
    case Regular => 1
    case Directory => 2
  }

  /** What an entry can be: a name of up to 15 characters, and a number. */
  predicate IsEntry(e: DirEntry) {
    |e.fileName| < NAME && e.iNo < 0x1_0000_0000
    && forall k :: 0 <= k < |e.fileName| ==> 0 < e.fileName[k] as int < 256
  }

  /** The 24 bytes of an entry (fs/dir.h:26-33): the name, padded with zeros to 16 bytes, the number of the inode, the
      type. */
  function EntryBytes(e: DirEntry): (r: seq<Byte>)
    requires IsEntry(e)
    ensures |r| == ENTRY
  {
    seq(NAME, k requires 0 <= k < NAME => if k < |e.fileName| then e.fileName[k] as int else 0)
    + FourBytes(e.iNo) + FourBytes(TypeNumber(e.fileType))
  }

  lemma FourBytesRead(x: U32)
    ensures Word(FourBytes(x)[0], FourBytes(x)[1], FourBytes(x)[2], FourBytes(x)[3]) == x
  {
    var q := x / 256;
    var r := q / 256;
    assert x / 65536 == r && x / 16777216 == r / 256;
    assert x == 256 * q + x % 256 && q == 256 * r + q % 256 && r == 256 * (r / 256) + r % 256;
  }

  /** These bytes are read as the entry. */
  lemma EntryRead(e: DirEntry)
    requires IsEntry(e)
    ensures DecodeEntry(EntryBytes(e)) == e
  {
    var bytes := EntryBytes(e);
    NameRead(bytes[..NAME], e.fileName);
    FourBytesRead(e.iNo);
    FourBytesRead(TypeNumber(e.fileType));
    var tail := bytes[NAME..];
    assert tail[0..4] == FourBytes(e.iNo) && tail[4..8] == FourBytes(TypeNumber(e.fileType));
    hide FourBytes, NameOf, Word;
    assert tail[0] == FourBytes(e.iNo)[0] && tail[1] == FourBytes(e.iNo)[1];
    assert tail[2] == FourBytes(e.iNo)[2] && tail[3] == FourBytes(e.iNo)[3];
    assert tail[4] == FourBytes(TypeNumber(e.fileType))[0] && tail[5] == FourBytes(TypeNumber(e.fileType))[1];
    assert tail[6] == FourBytes(TypeNumber(e.fileType))[2] && tail[7] == FourBytes(TypeNumber(e.fileType))[3];
  }

  predicate AreEntries(es: seq<DirEntry>) {
    forall k :: 0 <= k < |es| ==> IsEntry(es[k])
  }

  /** One entry after the other. */
  function EntriesBytes(es: seq<DirEntry>): (r: seq<Byte>)
    requires AreEntries(es)
    ensures |r| == ENTRY * |es|
  {
    if es == [] then [] else EntriesBytes(es[..|es| - 1]) + EntryBytes(es[|es| - 1])
  }

  lemma {:induction false} EntryAt(es: seq<DirEntry>, k: nat)
    requires AreEntries(es) && k < |es|
    ensures EntriesBytes(es)[ENTRY * k..ENTRY * k + ENTRY] == EntryBytes(es[k])
  {
    hide EntryBytes;
    var n := |es| - 1;
    if k < n {
      EntryAt(es[..n], k);
      assert EntriesBytes(es)[ENTRY * k..ENTRY * k + ENTRY] == EntriesBytes(es[..n])[ENTRY * k..ENTRY * k + ENTRY];
    }
  }

  /** A sector with 21 entries and 8 bytes behind them is read as these entries, in order. */
  lemma EntriesRead(es: seq<DirEntry>, tail: seq<Byte>)
    requires |es| == ENTRIES_PER_SECTOR == 21 && AreEntries(es) && |tail| == 8
    ensures |EntriesBytes(es) + tail| == SECTOR && DecodeBlock(EntriesBytes(es) + tail) == es
  {
    hide DecodeEntry, EntryBytes, EntriesBytes;
    var sector := EntriesBytes(es) + tail;
    forall k | 0 <= k < 21
      ensures DecodeBlock(sector)[k] == es[k]
    {
      EntryAt(es, k);
      EntryRead(es[k]);
      assert sector[ENTRY * k..ENTRY * k + ENTRY] == EntriesBytes(es)[ENTRY * k..ENTRY * k + ENTRY];
    }
  }

  /** A block with some entries and none behind them. */
  function Filled(es: seq<DirEntry>): (r: Block)
    requires |es| <= ENTRIES_PER_SECTOR && AreEntries(es)
    ensures AreEntries(r)
  {
    es + seq(ENTRIES_PER_SECTOR - |es|, _ => DirEntry("", 0, Unknown))
  }

  /** The sector of such a block. */
  function BlockBytes(es: seq<DirEntry>): Sector
    requires |es| <= ENTRIES_PER_SECTOR && AreEntries(es)
  {
    EntriesBytes(Filled(es)) + [0, 0, 0, 0, 0, 0, 0, 0]
  }

  /** The inode of a directory with one block, in sector x, that holds these entries. */
  ghost predicate OneBlockDir(d: map<nat, Sector>, i: IT.Inode, x: U32, es: seq<DirEntry>) {
    && |es| <= ENTRIES_PER_SECTOR && AreEntries(es)
    && i.iSectors == [x] + seq<U32>(FB.DIRECT, _ => 0) && x != 0 && x in d && d[x] == BlockBytes(es)
  }

  lemma LookupFilled(es: seq<DirEntry>, name: string)
    requires |es| <= ENTRIES_PER_SECTOR && AreEntries(es) && name != ""
    ensures Lookup(Filled(es), name) == Lookup(es, name)
  {
    LookupInBoth(es, seq(ENTRIES_PER_SECTOR - |es|, _ => DirEntry("", 0, Unknown)), name);
  }

  lemma ListedOne(d: map<nat, Sector>, x: U32)
    requires x != 0 && x in d
    ensures Listed(BlocksAt(d, [x])) == DecodeBlock(d[x])
  {
    hide DecodeBlock;
    assert BlocksAt(d, [x]) == [Some(DecodeBlock(d[x]))];
    assert BlocksAt(d, [x])[1..] == [];
  }

  lemma OneBlockAddresses(d: map<nat, Sector>, s: seq<U32>, x: U32)
    requires s == [x] + seq<U32>(FB.DIRECT, _ => 0)
    ensures FB.AllOf(d, s) == [x] + seq<U32>(MAX_ALL_BLOCK - 1, _ => 0)
  {
  }

  /** A name is looked up among them. */
  lemma LookupInBytes(d: map<nat, Sector>, i: IT.Inode, x: U32, es: seq<DirEntry>, name: string)
    requires IT.Shaped(i) && OneBlockDir(d, i, x, es) && name != ""
    ensures Lookup(Listed(BlocksOf(d, i)), name) == Lookup(es, name)
  {
    hide EntriesBytes, DecodeBlock, Lookup, Listed, BlocksAt, Filled, FB.AllOf, AreEntries;
    EntriesRead(Filled(es), [0, 0, 0, 0, 0, 0, 0, 0]);
    OneBlockAddresses(d, i.iSectors, x);
    BlocksAtBoth(d, [x], seq<U32>(MAX_ALL_BLOCK - 1, _ => 0), name);
    NoBlocks(d, MAX_ALL_BLOCK - 1);
    ListedOne(d, x);
    LookupFilled(es, name);
    NothingFound(name);
  }

  /** In the directory with that number. */
  lemma LookupInTree(d: map<nat, Sector>, table: nat, tree: Tree, no: nat, x: U32, es: seq<DirEntry>, name: string)
    requires IsTree(d, table, tree) && no < IT.INODES && name != ""
    requires OneBlockDir(d, IT.Stored(d, table, no), x, es)
    ensures Lookup(Entries(tree, no), name) == Lookup(es, name)
  {
    hide Lookup, Listed, BlocksOf, OneBlockDir;
    LookupInBytes(d, IT.Stored(d, table, no), x, es, name);
    assert no in tree && tree[no] == BlocksOf(d, IT.Stored(d, table, no));
  }

  lemma FoundInTwo(top: seq<DirEntry>, sub: seq<DirEntry>)
    requires top == [DirEntry("a", 7, Regular), DirEntry("d", 8, Directory)] && sub == [DirEntry("b", 9, Regular)]
    ensures Lookup(top, "a") == Some(top[0]) && Lookup(top, "d") == Some(top[1])
    ensures Lookup(top, "c").None? && Lookup(top, "x").None?
    ensures Lookup(sub, "b") == Some(sub[0]) && Lookup(sub, "c").None?
  {
    assert "a" != "d" && "a" != "c" && "d" != "c" && "b" != "c";
    assert top[1..] == [top[1]] && top[1..][1..] == [] && sub[1..] == [];
  }

  /** The root directory itself is no file to be opened, however it is named. */
  lemma OpenRoot(tree: Tree, root: nat)
    ensures OpenByWalk(tree, root, "/") == OpenByWalk(tree, root, "/.") == OpenByWalk(tree, root, "/..") == Refused
    ensures OpenByWalk(tree, root, "//") == Refused
  {
  }

  /** A path of one name, and one of two. */
  lemma OpenOne(tree: Tree, root: nat, name: string)
    requires name != "" && NoSlash(name) && name != "." && name != ".."
    ensures var entry := Lookup(Entries(tree, root), name);
            OpenByWalk(tree, root, "/" + name)
              == if entry.None? then Missing(root)
                 else if entry.value.fileType == Directory then Refused else Found(entry.value.iNo)
  {
    hide Entries, Lookup, Names;
    var path := "/" + name;
    assert Canonical([name]) == path;
    NamesOfCanonical([name]);
    assert Names(path) == [name];
    assert [name][..0] == [];
    assert Reach(tree, root, []) == Some(root);
    assert path[1..] == name && "/."[1..] == "." && "/.."[1..] == "..";
    assert path[|path| - 1] == name[|name| - 1] && |path| > 1;
    assert !IsRootPath(path);
  }

  lemma TwoNames(first: string, name: string)
    requires first != "" && NoSlash(first) && name != "" && NoSlash(name)
    ensures var path := "/" + first + "/" + name;
            Names(path) == [first, name] && !IsRootPath(path) && path[|path| - 1] != '/'
  {
    hide Names;
    var path, names := "/" + first + "/" + name, [first, name];
    assert names[1..] == [name] && [name][1..] == [];
    assert Canonical([name]) == "/" + name;
    assert Canonical(names) == path;
    NamesOfCanonical(names);
    assert path[|path| - 1] == name[|name| - 1] && path[|first| + 1] == '/';
  }

  lemma OpenTwo(tree: Tree, root: nat, first: string, name: string)
    requires first != "" && NoSlash(first) && name != "" && NoSlash(name)
    ensures var dir := Lookup(Entries(tree, root), first);
            OpenByWalk(tree, root, "/" + first + "/" + name)
              == if dir.None? || dir.value.fileType != Directory then Refused
                 else match Lookup(Entries(tree, dir.value.iNo), name)
                   case None => Missing(dir.value.iNo)
                   case Some(entry) => if entry.fileType == Directory then Refused else Found(entry.iNo)
  {
    hide Entries, Lookup, Names;
    TwoNames(first, name);
    var names := [first, name];
    assert names[..1] == [first] && names[1] == name;
    assert [first][0] == first && [first][1..] == [];
    var dir := Lookup(Entries(tree, root), first);
    if dir.Some? && dir.value.fileType == Directory {
      assert Reach(tree, dir.value.iNo, []) == Some(dir.value.iNo);
      assert Reach(tree, root, [first]) == Some(dir.value.iNo);
    } else {
      assert Reach(tree, root, [first]) == None;
    }
  }

  /** A root directory with a file "a", inode 7, and a directory "d", inode 8, that has a file "b", inode 9, all of them
      as bytes on the disk: what sys_open makes of some paths. */
  lemma OpenFromBytes(d: map<nat, Sector>, table: nat, tree: Tree, root: nat, x: U32, y: U32)
    requires IsTree(d, table, tree) && root < IT.INODES
    requires OneBlockDir(d, IT.Stored(d, table, root), x, [DirEntry("a", 7, Regular), DirEntry("d", 8, Directory)])
    requires OneBlockDir(d, IT.Stored(d, table, 8), y, [DirEntry("b", 9, Regular)])
    ensures OpenByWalk(tree, root, "/a") == Found(7) && OpenByWalk(tree, root, "/d/b") == Found(9)
    ensures OpenByWalk(tree, root, "/d") == Refused && OpenByWalk(tree, root, "/a/b") == Refused
    ensures OpenByWalk(tree, root, "/c") == Missing(root) && OpenByWalk(tree, root, "/d/c") == Missing(8)
    ensures OpenByWalk(tree, root, "/d/") == Refused && OpenByWalk(tree, root, "/x/b") == Refused
  {
    hide OneBlockDir, IsTree, Names, Entries, Lookup, Reach, IT.Stored;
    var top, sub := [DirEntry("a", 7, Regular), DirEntry("d", 8, Directory)], [DirEntry("b", 9, Regular)];
    FoundInTwo(top, sub);
    LookupInTree(d, table, tree, root, x, top, "a");
    LookupInTree(d, table, tree, root, x, top, "c");
    LookupInTree(d, table, tree, root, x, top, "d");
    LookupInTree(d, table, tree, root, x, top, "x");
    LookupInTree(d, table, tree, 8, y, sub, "b");
    LookupInTree(d, table, tree, 8, y, sub, "c");
    OpenOne(tree, root, "a");
    OpenOne(tree, root, "c");
    OpenOne(tree, root, "d");
    OpenTwo(tree, root, "d", "b");
    OpenTwo(tree, root, "d", "c");
    OpenTwo(tree, root, "a", "b");
    OpenTwo(tree, root, "x", "b");
    assert "/" + "a" == "/a" && "/" + "c" == "/c" && "/" + "d" == "/d";
    assert "/" + "d" + "/" + "b" == "/d/b" && "/" + "d" + "/" + "c" == "/d/c";
    assert "/" + "a" + "/" + "b" == "/a/b" && "/" + "x" + "/" + "b" == "/x/b";
  }

  // ---------------------------------------------------------------- strcat as written

  /** The buffer after strcat: the text at the start, then a byte as it was, then a zero. */
  function Strcat(buf: string, text: string): (r: string)
    requires |text| + 1 < |buf|
    ensures |r| == |buf|
  {
    text + [buf[|text|], '\0'] + buf[|text| + 2..]
  }

  /** The string in a buffer. */
  function CString(buf: string): string {
    if buf == "" || buf[0] == '\0' then "" else [buf[0]] + CString(buf[1..])
  }

  predicate IsCName(name: string) {
    name != "" && |name| < 16 && NoSlash(name) && forall i :: 0 <= i < |name| ==> name[i] != '\0'
  }

  /** The record after visiting some names. */
  function RecordAsWritten(buf: string, visited: seq<string>): (r: string)
    requires |buf| == 512 && forall i :: 0 <= i < |visited| ==> IsCName(visited[i])
    ensures |r| == 512
  {
    if visited == [] then buf
    else
      var name := visited[|visited| - 1];
      assert IsCName(name);
      Strcat(Strcat(RecordAsWritten(buf, visited[..|visited| - 1]), "/"), name)
  }

  lemma {:induction false} RecordHasNoSlash(buf: string, visited: seq<string>)
    requires |buf| == 512 && NoSlash(buf) && forall i :: 0 <= i < |visited| ==> IsCName(visited[i])
    ensures NoSlash(RecordAsWritten(buf, visited))
    ensures visited != [] ==> RecordAsWritten(buf, visited)[0] != '\0'
  {
    if visited != [] {
      var before := RecordAsWritten(buf, visited[..|visited| - 1]);
      RecordHasNoSlash(buf, visited[..|visited| - 1]);
      var name := visited[|visited| - 1];
      var mid := Strcat(before, "/");
      assert forall i :: 1 <= i < 512 ==> mid[i] != '/';
      assert Strcat(mid, name)[0] == name[0];
    }
  }

  lemma {:induction false} CStringNoSlash(buf: string)
    requires NoSlash(buf)
    ensures NoSlash(CString(buf)) && (buf != "" && buf[0] != '\0' ==> CString(buf) != "")
  {
    if buf != "" && buf[0] != '\0' { CStringNoSlash(buf[1..]); }
  }

  /** With strcat as it is, the record of a search never has more than one component, so that sys_open
      lets a path pass exactly if it names something in the root directory. */
  lemma DepthTestAsWrittenIff(visited: seq<string>, names: seq<string>)
    requires visited != [] && visited <= names && forall i :: 0 <= i < |visited| ==> IsCName(visited[i])
    ensures var rec := RecordAsWritten(seq(512, _ => '\0'), visited);
            |Names(CString(rec))| == |names| <==> |names| == 1
  {
    var zeros := seq(512, _ => '\0');
    RecordHasNoSlash(zeros, visited);
    var text := CString(RecordAsWritten(zeros, visited));
    CStringNoSlash(RecordAsWritten(zeros, visited));
    NamesOfName(text, "");
    assert text + "" == text && Names("") == [];
  }

  /** "/a/b" with both names there: the record has one component where the path has two, so the file
      cannot be opened. */
  lemma DepthTestExample()
    ensures Names("/a/b") == ["a", "b"]
    ensures |Names(CString(RecordAsWritten(seq(512, _ => '\0'), ["a", "b"])))| == 1
  {
    NamesAfterSlash("/a/b");
    assert "/a/b"[1..] == "a" + "/b";
    NamesOfName("a", "/b");
    NamesAfterSlash("/b");
    assert "/b"[1..] == "b" + "";
    NamesOfName("b", "");
    var zeros := seq(512, _ => '\0');
    RecordHasNoSlash(zeros, ["a", "b"]);
    var text := CString(RecordAsWritten(zeros, ["a", "b"]));
    CStringNoSlash(RecordAsWritten(zeros, ["a", "b"]));
    NamesOfName(text, "");
    assert text + "" == text && Names("") == [];
  }
}
