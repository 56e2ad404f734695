/** The vault's operations on the encrypted tree (internal/crypto/vault.go). */
module VaultFiles {
  import opened Wrappers
  import opened VaultTree
  import opened ContentSizes

  /** An entry of a listing; sizes are zero for directories. */
  datatype FileInfo = FileInfo(name: string, isDir: bool, size: int, encryptedLen: int)

  datatype ListError = NotADirectory

  function InfoOf(name: string, node: PlainNode): (info: FileInfo) {
    match node
    case PlainDir => FileInfo(name, true, 0, 0)
    case PlainFile(data) => FileInfo(name, false, CipherSize2PlaintextSize(|data|), |data|)
  }

  /** infos lists each child of p once, with its kind and sizes, and nothing else. */
  ghost predicate Lists(t: PlainTree, p: VPath, infos: seq<FileInfo>) {
    && (forall i :: 0 <= i < |infos| ==>
          p + [infos[i].name] in t && infos[i] == InfoOf(infos[i].name, t[p + [infos[i].name]]))
    && (forall n :: p + [n] in t ==> exists i :: 0 <= i < |infos| && infos[i].name == n)
    && (forall i, j :: 0 <= i < j < |infos| ==> infos[i].name != infos[j].name)
  }

  /** A file as long as the writer's output for n bytes is listed with n as its size. */
  lemma ListedSizes(t: PlainTree, p: VPath, infos: seq<FileInfo>, i: nat, n: nat)
    requires Lists(t, p, infos) && i < |infos|
    ensures var info, node := infos[i], t[p + [infos[i].name]];
            && info.isDir == node.PlainDir?
            && (node.PlainDir? ==> info.size == 0 && info.encryptedLen == 0)
            && (node.PlainFile? && |node.data| == PlaintextSize2CipherSize(n) ==>
                  info.size == n && info.encryptedLen == |node.data|)
  {
    hide CipherSize2PlaintextSize, PlaintextSize2CipherSize;
    SizeRoundTrip(n);
  }

  datatype Visit = Visit(path: VPath, info: FileInfo)

  /** visits has each file at or below v once, and nothing else. */
  ghost predicate VisitsFiles(t: PlainTree, v: VPath, visits: seq<Visit>) {
    && (forall i :: 0 <= i < |visits| ==> IsVisit(t, v, visits[i]))
    && (forall u :: u in t && t[u].PlainFile? && v <= u ==> exists i :: 0 <= i < |visits| && visits[i].path == u)
    && (forall i, j :: 0 <= i < j < |visits| ==> visits[i].path != visits[j].path)
  }

  ghost predicate IsVisit(t: PlainTree, v: VPath, visit: Visit) {
    && visit.path in t && t[visit.path].PlainFile? && v < visit.path
    && visit.info == InfoOf(Base(visit.path), t[visit.path])
  }

  function HasSuffix(s: string, suffix: string): bool {
    |suffix| <= |s| && s[|s| - |suffix|..] == suffix
  }

  lemma RootIsDirectory(c: Codec, root: Path, files: Files, tree: Tree)
    requires Agree(c, root, files, tree)
    ensures IsDirectory(tree, []) && tree[[]].slot == root
  {
  }

  /** The entry of a name in its parent's directory. */
  function EntryAt(c: Codec, tree: Tree, v: VPath, kind: Kind): Entry
    requires v != [] && IsDirectory(tree, Parent(v))
  {
    var p := tree[Parent(v)];
    var enc := c.enc(Base(v), p.kind.id);
    Entry(kind, enc, p.slot + [Leaf(c, kind, enc)])
  }

  /** Where the contents of a file of this name belong. */
  function FilePathOf(c: Codec, tree: Tree, v: VPath): Path
    requires v != [] && IsDirectory(tree, Parent(v))
  {
    ContentPath(c, tree[Parent(v)].slot, c.enc(Base(v), tree[Parent(v)].kind.id))
  }

  /** The tree with a place reserved for a new long name. */
  function Reserving(c: Codec, tree: Tree, v: VPath): Tree
    requires v != [] && IsDirectory(tree, Parent(v))
  {
    var e := EntryAt(c, tree, v, Reserved);
    if v !in tree && IsLong(e.enc) then tree[v := e] else tree
  }

  /** The disk after MkdirAll and writeShortNameFile of a name's place. */
  function NameWritten(files: Files, place: Path, enc: string): Files {
    (if place in files then files else files[place := Dir])[place + [SHORT_NAME_FILE] := File(enc)]
  }

  lemma PlaceIsFree(c: Codec, root: Path, files: Files, tree: Tree, v: VPath, kind: Kind)
    requires Agree(c, root, files, tree) && v != [] && v !in tree && Base(v) != "" && IsDirectory(tree, Parent(v))
    requires kind.Reserved? ==> IsLong(EntryAt(c, tree, v, kind).enc)
    ensures Fits(c, tree, v, EntryAt(c, tree, v, kind)) && EntryAt(c, tree, v, kind).slot !in files
  {
    var e := EntryAt(c, tree, v, kind);
    assert Fits(c, tree, v, e);
    if e.slot in files {
      TreeGrows(c, root, tree, v, e);
      var u, part :| IsPartOf(e.slot, tree, u, part);
      PartsDiffer(c, root, tree[v := e], u, part, v, Itself);
      assert false;
    }
  }

  /** The metadata of an existing long name is on disk as it would be written. */
  lemma NameIsWritten(c: Codec, root: Path, files: Files, tree: Tree, v: VPath)
    requires Agree(c, root, files, tree) && v in tree && v != [] && IsLong(tree[v].enc)
    ensures IsDirectory(tree, Parent(v))
    ensures var e := EntryAt(c, tree, v, Reserved);
            tree[v].slot == e.slot && tree[v].enc == e.enc && NameWritten(files, e.slot, e.enc) == files
  {
    hide NothingElse;
    EntryFacts(c, root, tree, v);
    assert HasPart(tree[v], Itself) && HasPart(tree[v], NameFile);
    assert PartPath(tree[v], Itself) in files && PartPath(tree[v], NameFile) in files;
    assert files[PartPath(tree[v], NameFile)] == File(tree[v].enc);
  }

  lemma WrittenReserved(files: Files, e: Entry)
    requires e.kind.Reserved? && IsLong(e.enc) && e.slot !in files
    ensures files + Written(e) == NameWritten(files, e.slot, e.enc)
  {
    PartsOfOneEntry(e.slot, SHORT_NAME_FILE, CONTENTS_FILE);
  }

  lemma WrittenDirectory(files: Files, e: Entry)
    requires e.kind.Directory? && (e.slot in files ==> files[e.slot] == Dir)
    ensures files + Written(e)
         == (if IsLong(e.enc) then NameWritten(files, e.slot, e.enc) else files[e.slot := Dir])
              [e.slot + [DIR_ID_FILE] := File(e.kind.id)]
  {
    PartsOfOneEntry(e.slot, DIR_ID_FILE, SHORT_NAME_FILE);
  }

  lemma WrittenLongFile(files: Files, e: Entry)
    requires e.kind.Regular? && IsLong(e.enc) && (e.slot in files ==> files[e.slot] == Dir)
    ensures files + Written(e) == NameWritten(files, e.slot, e.enc)[e.slot + [CONTENTS_FILE] := File(e.kind.data)]
  {
    PartsOfOneEntry(e.slot, CONTENTS_FILE, SHORT_NAME_FILE);
  }

  lemma ReserveGrows(c: Codec, root: Path, files: Files, tree: Tree, v: VPath)
    requires Agree(c, root, files, tree) && v != [] && Base(v) != "" && IsDirectory(tree, Parent(v))
    requires IsLong(EntryAt(c, tree, v, Reserved).enc)
    ensures var e := EntryAt(c, tree, v, Reserved);
            Agree(c, root, NameWritten(files, e.slot, e.enc), Reserving(c, tree, v))
  {
    hide Stored, NothingElse, Written, NameWritten;
    var e := EntryAt(c, tree, v, Reserved);
    if v in tree {
      EntryFacts(c, root, tree, v);
      NameIsWritten(c, root, files, tree, v);
    } else {
      PlaceIsFree(c, root, files, tree, v, Reserved);
      WrittenReserved(files, e);
      AgreeGrows(c, root, files, tree, v, e);
    }
  }

  /** The child of a directory that has this name on disk shows as info, if it shows at all. */
  ghost predicate Shows(c: Codec, tree: Tree, p: VPath, x: string, info: FileInfo) {
    var v := p + [info.name];
    && v in tree && !tree[v].kind.Reserved? && Leaf(c, tree[v].kind, tree[v].enc) == x
    && info == InfoOf(info.name, Plain(tree)[v])
  }

  /** No visible child of the directory has this name on disk. */
  ghost predicate ShowsNothing(c: Codec, tree: Tree, p: VPath, x: string) {
    forall n :: p + [n] in tree && Leaf(c, tree[p + [n]].kind, tree[p + [n]].enc) == x ==> tree[p + [n]].kind.Reserved?
  }

  /** The name on disk of a directory's child, in the terms ListDirectory reads it. */
  lemma ChildNameReads(c: Codec, root: Path, files: Files, tree: Tree, p: VPath, n: string)
    requires Agree(c, root, files, tree) && IsDirectory(tree, p) && p + [n] in tree
    ensures var e := tree[p + [n]];
            var x := Leaf(c, e.kind, e.enc);
            && e.slot == tree[p].slot + [x] && c.dec(e.enc, tree[p].kind.id) == Some(n)
            && |x| >= 4 && !IsMetadata(x) && (x[|x| - 4..] == SHORT_NAME_DIR <==> IsLong(e.enc))
            && (!IsLong(e.enc) ==>
                  && !e.kind.Reserved?
                  && (e.kind.Directory? ==> Dotless(x) && x == e.enc)
                  && (e.kind.Regular? ==> x == e.enc + ENCRYPTED_EXT))
  {
    var e := tree[p + [n]];
    EntryFacts(c, root, tree, p + [n]);
    assert Parent(p + [n]) == p;
    LeafShape(c, e.kind, e.enc);
  }

  /** The files of an entry, in the same terms. */
  lemma EntryReads(c: Codec, root: Path, files: Files, tree: Tree, v: VPath)
    requires Agree(c, root, files, tree) && v in tree
    ensures var e := tree[v];
            && (IsLong(e.enc) ==>
                  && e.slot in files && files[e.slot] == Dir
                  && e.slot + [SHORT_NAME_FILE] in files && files[e.slot + [SHORT_NAME_FILE]] == File(e.enc)
                  && (e.kind.Regular? ==>
                        e.slot + [CONTENTS_FILE] in files && files[e.slot + [CONTENTS_FILE]] == File(e.kind.data))
                  && (e.slot + [CONTENTS_FILE] in files ==> e.kind.Regular?))
            && (!IsLong(e.enc) && e.kind.Regular? ==> e.slot in files && files[e.slot] == File(e.kind.data))
            && (e.slot + [DIR_ID_FILE] in files <==> e.kind.Directory?)
  {
    PartIsStored(c, root, files, tree, v, Itself);
    PartIsStored(c, root, files, tree, v, IdFile);
    PartIsStored(c, root, files, tree, v, NameFile);
    PartIsStored(c, root, files, tree, v, Contents);
    hide Agree;
  }

  lemma LeafShape(c: Codec, k: Kind, e: string)
    requires Dotless(e) && |e| > 8
    ensures var x := Leaf(c, k, e);
            && |x| >= 4 && (IsLong(e) || k.Regular? || x == e)
            && (!IsLong(e) && k.Regular? ==> x == e + ENCRYPTED_EXT)
            && (x[|x| - 4..] == SHORT_NAME_DIR <==> IsLong(e))
  {
    var x := Leaf(c, k, e);
    assert IsLong(e) || k.Regular? || x[|x| - 4..][0] != '.';
    assert IsLong(e) || !k.Regular? || x[|x| - 4..] == ENCRYPTED_EXT;
  }

  lemma OnlyItsOwnMetadata(c: Codec, root: Path, tree: Tree, v: VPath, want: Part, u: VPath, part: Part)
    requires Lawful(c) && TreeOk(c, root, tree) && v in tree && !want.Itself?
    requires IsPartOf(tree[v].slot + [MetadataName(want)], tree, u, part)
    ensures HasPart(tree[v], want)
  {
    PartsDiffer(c, root, tree, v, want, u, part);
  }

  /** The place of a part of an entry is taken on disk if and only if the entry has the part. */
  lemma PartIsStored(c: Codec, root: Path, files: Files, tree: Tree, v: VPath, part: Part)
    requires Agree(c, root, files, tree) && v in tree
    ensures PartPath(tree[v], part) in files <==> HasPart(tree[v], part)
    ensures HasPart(tree[v], part) ==> files[PartPath(tree[v], part)] == PartNode(tree[v], part)
  {
    if PartPath(tree[v], part) in files && !part.Itself? {
      var u, part' :| IsPartOf(PartPath(tree[v], part), tree, u, part');
      OnlyItsOwnMetadata(c, root, tree, v, part, u, part');
    }
  }

  function Stat(files: Files, path: Path): (data: Option<string>) {
    if path in files && files[path].File? then Some(files[path].data) else None
  }

  function FileInfoOf(name: string, data: string): (info: FileInfo) {
    FileInfo(name, false, CipherSize2PlaintextSize(|data|), |data|)
  }

  /** How a listing reads a shortened name, a directory's name, and a file's name. */
  function ShortInfo(c: Codec, files: Files, place: Path, dirID: string): (info: Option<FileInfo>) {
    var full := Stat(files, place + [SHORT_NAME_FILE]);
    if full.None? then None
    else
      var name := c.dec(full.value, dirID);
      if name.None? then None
      else if place + [DIR_ID_FILE] in files then Some(FileInfo(name.value, true, 0, 0))
      else
        var data := Stat(files, place + [CONTENTS_FILE]);
        if data.None? then None else Some(FileInfoOf(name.value, data.value))
  }

  function DirInfo(c: Codec, files: Files, place: Path, x: string, dirID: string): (info: Option<FileInfo>) {
    var name := c.dec(x, dirID);
    if place + [DIR_ID_FILE] in files && name.Some? then Some(FileInfo(name.value, true, 0, 0)) else None
  }

  function PlainInfo(c: Codec, files: Files, place: Path, enc: string, dirID: string): (info: Option<FileInfo>) {
    var name, data := c.dec(enc, dirID), Stat(files, place);
    if name.Some? && data.Some? then Some(FileInfoOf(name.value, data.value)) else None
  }

  function EntryInfo(c: Codec, files: Files, dirPath: Path, dirID: string, x: string): (info: Option<FileInfo>) {
    var place := dirPath + [x];
    if x == DIR_ID_FILE || x == VAULT_CONFIG_FILE || x == ROOT_MAPPING_FILE then None
    else if HasSuffix(x, SHORT_NAME_DIR) && place in files && files[place].Dir? then ShortInfo(c, files, place, dirID)
    else if !HasSuffix(x, ENCRYPTED_EXT) then DirInfo(c, files, place, x, dirID)
    else PlainInfo(c, files, place, x[..|x| - 4], dirID)
  }

  /** A listing reads metadata as nothing. */
  lemma MetadataInfo(c: Codec, files: Files, dirPath: Path, dirID: string, x: string)
    requires Lawful(c) && IsMetadata(x)
    ensures EntryInfo(c, files, dirPath, dirID, x) == None
  {
    assert SHORT_NAME_FILE[|SHORT_NAME_FILE| - 4..] == ENCRYPTED_EXT;
    assert CONTENTS_FILE[|CONTENTS_FILE| - 4..] == ENCRYPTED_EXT;
    assert ENCRYPTED_EXT != SHORT_NAME_DIR by {
      assert SHORT_NAME_DIR[3] == 's' && ENCRYPTED_EXT[3] == 'r';
    }
  }

  /** A listing of the directory reads this child as the plain tree has it, and skips a reserved name. */
  ghost predicate ReadsAs(c: Codec, files: Files, tree: Tree, p: VPath, n: string)
    requires IsDirectory(tree, p) && p + [n] in tree
  {
    var e := tree[p + [n]];
    var info := EntryInfo(c, files, tree[p].slot, tree[p].kind.id, Leaf(c, e.kind, e.enc));
    info == if e.kind.Reserved? then None else Some(InfoOf(n, Plain(tree)[p + [n]]))
  }

  /** A long name is read from its metadata. */
  lemma LongChildInfo(c: Codec, root: Path, files: Files, tree: Tree, p: VPath, n: string)
    requires Agree(c, root, files, tree) && IsDirectory(tree, p) && p + [n] in tree && IsLong(tree[p + [n]].enc)
    ensures ReadsAs(c, files, tree, p, n)
  {
    ChildNameReads(c, root, files, tree, p, n);
    EntryReads(c, root, files, tree, p + [n]);
    hide Agree, Leaf, Stored, NothingElse, Linked, TreeOk, Lawful, DirInfo, PlainInfo;
  }

  /** A directory's name that fits is read from the file-system name. */
  lemma DirChildInfo(c: Codec, root: Path, files: Files, tree: Tree, p: VPath, n: string)
    requires Agree(c, root, files, tree) && IsDirectory(tree, p)
    requires IsDirectory(tree, p + [n]) && !IsLong(tree[p + [n]].enc)
    ensures ReadsAs(c, files, tree, p, n)
  {
    ChildNameReads(c, root, files, tree, p, n);
    EntryReads(c, root, files, tree, p + [n]);
    hide Agree, Leaf, Stored, NothingElse, Linked, TreeOk, Lawful, ShortInfo, PlainInfo;
    var x := Leaf(c, tree[p + [n]].kind, tree[p + [n]].enc);
    assert x[|x| - 4..][0] != '.' && ENCRYPTED_EXT[0] == '.';
    assert !HasSuffix(x, ENCRYPTED_EXT);
  }

  /** A file's name that fits is read from the file-system name without its extension. */
  lemma FileChildInfo(c: Codec, root: Path, files: Files, tree: Tree, p: VPath, n: string)
    requires Agree(c, root, files, tree) && IsDirectory(tree, p)
    requires p + [n] in tree && tree[p + [n]].kind.Regular? && !IsLong(tree[p + [n]].enc)
    ensures ReadsAs(c, files, tree, p, n)
  {
    ChildNameReads(c, root, files, tree, p, n);
    EntryReads(c, root, files, tree, p + [n]);
    hide Agree, Leaf, Stored, NothingElse, Linked, TreeOk, Lawful, ShortInfo, DirInfo;
    var e := tree[p + [n]];
    var x := Leaf(c, e.kind, e.enc);
    assert x[..|x| - 4] == e.enc && x[|x| - 4..] == ENCRYPTED_EXT;
  }

  /** So the listing and the plain tree agree on every child. */
  lemma ChildInfo(c: Codec, root: Path, files: Files, tree: Tree, p: VPath, n: string)
    requires Agree(c, root, files, tree) && IsDirectory(tree, p) && p + [n] in tree
    ensures ReadsAs(c, files, tree, p, n)
  {
    if IsLong(tree[p + [n]].enc) {
      LongChildInfo(c, root, files, tree, p, n);
    } else if IsDirectory(tree, p + [n]) {
      DirChildInfo(c, root, files, tree, p, n);
    } else {
      EntryFacts(c, root, tree, p + [n]);
      FileChildInfo(c, root, files, tree, p, n);
    }
  }

  /** A name on disk in a directory is metadata, or that of one child. */
  lemma OneChild(c: Codec, root: Path, files: Files, tree: Tree, p: VPath, x: string) returns (n: string)
    requires Agree(c, root, files, tree) && IsDirectory(tree, p) && tree[p].slot + [x] in files
    ensures IsMetadata(x) ==> ShowsNothing(c, tree, p, x)
    ensures !IsMetadata(x) ==> p + [n] in tree && Leaf(c, tree[p + [n]].kind, tree[p + [n]].enc) == x
    ensures !IsMetadata(x) && tree[p + [n]].kind.Reserved? ==> ShowsNothing(c, tree, p, x)
  {
    n := "";
    hide Stored, NothingElse, Leaf;
    if IsMetadata(x) {
      forall m | p + [m] in tree ensures Leaf(c, tree[p + [m]].kind, tree[p + [m]].enc) != x {
        EntryFacts(c, root, tree, p + [m]);
      }
    } else {
      n := ChildOnDisk(c, root, files, tree, p, x);
      forall m | p + [m] in tree && Leaf(c, tree[p + [m]].kind, tree[p + [m]].enc) == x ensures m == n {
        NameOfLeaf(c, root, tree, p, m, n);
      }
    }
  }

  ghost predicate FromDone(c: Codec, tree: Tree, p: VPath, done: set<string>, info: FileInfo) {
    exists x :: x in done && Shows(c, tree, p, x, info)
  }

  /** The listing of the names done so far: their visible children, each once. */
  ghost predicate ListedFrom(c: Codec, tree: Tree, p: VPath, infos: seq<FileInfo>, done: set<string>) {
    && (forall i :: 0 <= i < |infos| ==> FromDone(c, tree, p, done, infos[i]))
    && (forall n :: p + [n] in tree && !tree[p + [n]].kind.Reserved?
                    && Leaf(c, tree[p + [n]].kind, tree[p + [n]].enc) in done ==>
          exists i :: 0 <= i < |infos| && infos[i].name == n)
    && (forall i, j :: 0 <= i < j < |infos| ==> infos[i].name != infos[j].name)
  }

  lemma ListedMore(c: Codec, root: Path, tree: Tree, p: VPath, infos: seq<FileInfo>, done: set<string>,
                   x: string, info: Option<FileInfo>)
    requires Lawful(c) && TreeOk(c, root, tree) && ListedFrom(c, tree, p, infos, done) && x !in done
    requires info.Some? ==> Shows(c, tree, p, x, info.value)
    requires info.None? ==> ShowsNothing(c, tree, p, x)
    ensures ListedFrom(c, tree, p, if info.Some? then infos + [info.value] else infos, done + {x})
  {
    hide Lawful, TreeOk, Leaf, InfoOf, Plain;
    if info.Some? {
      var infos' := infos + [info.value];
      forall i | 0 <= i < |infos'| ensures FromDone(c, tree, p, done + {x}, infos'[i]) {
        if i < |infos| {
          assert FromDone(c, tree, p, done, infos[i]);
          var y :| y in done && Shows(c, tree, p, y, infos[i]);
          assert y in done + {x} && infos'[i] == infos[i];
        } else {
          assert x in done + {x} && Shows(c, tree, p, x, infos'[i]);
        }
      }
      forall n | p + [n] in tree && !tree[p + [n]].kind.Reserved?
                 && Leaf(c, tree[p + [n]].kind, tree[p + [n]].enc) in done + {x}
        ensures exists i :: 0 <= i < |infos'| && infos'[i].name == n
      {
        if Leaf(c, tree[p + [n]].kind, tree[p + [n]].enc) == x {
          NameOfLeaf(c, root, tree, p, n, info.value.name);
          assert infos'[|infos|].name == n;
        } else {
          var i :| 0 <= i < |infos| && infos[i].name == n;
          assert infos'[i].name == n;
        }
      }
    }
  }

  lemma ListedAll(c: Codec, root: Path, files: Files, tree: Tree, p: VPath, infos: seq<FileInfo>, done: set<string>)
    requires Agree(c, root, files, tree) && IsDirectory(tree, p) && ListedFrom(c, tree, p, infos, done)
    requires forall x :: tree[p].slot + [x] in files ==> x in done
    ensures Lists(Plain(tree), p, infos)
  {
    hide NothingElse, Lawful, Leaf, InfoOf;
    forall n | p + [n] in tree ensures Leaf(c, tree[p + [n]].kind, tree[p + [n]].enc) in done {
      var v := p + [n];
      assert Linked(c, tree, v) && Parent(v) == p;
      assert HasPart(tree[v], Itself) && PartPath(tree[v], Itself) in files;
    }
  }

  lemma NothingListed(c: Codec, tree: Tree, p: VPath)
    ensures ListedFrom(c, tree, p, [], {})
  {
  }

  lemma AgreeParts(c: Codec, root: Path, files: Files, tree: Tree)
    requires Agree(c, root, files, tree)
    ensures Lawful(c) && TreeOk(c, root, tree)
  {
  }

  lemma DirectoryIsStored(c: Codec, root: Path, files: Files, tree: Tree, v: VPath)
    requires Agree(c, root, files, tree) && IsDirectory(tree, v)
    ensures tree[v].slot in files && files[tree[v].slot] == Dir
  {
    PartIsStored(c, root, files, tree, v, Itself);
  }

  /** Where a name's contents would be there is never a directory. */
  lemma ContentsAreNoDirectory(c: Codec, root: Path, files: Files, tree: Tree, v: VPath)
    requires Agree(c, root, files, tree) && v != [] && Base(v) != "" && IsDirectory(tree, Parent(v))
    ensures FilePathOf(c, tree, v) in files ==> files[FilePathOf(c, tree, v)].File?
  {
    hide Stored, NothingElse, Linked;
    var p, n := Parent(v), Base(v);
    var enc := c.enc(n, tree[p].kind.id);
    assert v == p + [n];
    if FilePathOf(c, tree, v) in files {
      if IsLong(enc) {
        MetadataOfName(c, root, files, tree, p, n, Contents);
        PlaceIsSlot(c, root, tree, p, n);
        PartIsStored(c, root, files, tree, v, Contents);
      } else {
        assert enc + ENCRYPTED_EXT == Leaf(c, Regular(""), enc);
        LeafIsNotMetadata(c, Regular(""), enc);
        var m := ChildOnDisk(c, root, files, tree, p, enc + ENCRYPTED_EXT);
        EntryFacts(c, root, tree, p + [m]);
        assert Parent(p + [m]) == p;
        LeavesDiffer(c, tree[p + [m]].kind, tree[p + [m]].enc, Regular(""), enc);
        PartIsStored(c, root, files, tree, p + [m], Itself);
      }
    }
  }

  /** What the plain tree sees of a new or replaced entry. */
  lemma PlainGrows(tree: Tree, v: VPath, e: Entry)
    ensures e.kind.Reserved? ==> Plain(tree[v := e]) == Plain(tree) - {v}
    ensures e.kind.Directory? ==> Plain(tree[v := e]) == Plain(tree)[v := PlainDir]
    ensures e.kind.Regular? ==> Plain(tree[v := e]) == Plain(tree)[v := PlainFile(e.kind.data)]
  {
  }

  lemma LongIsReserved(c: Codec, tree: Tree, v: VPath)
    requires v != [] && IsDirectory(tree, Parent(v)) && Reserving(c, tree, v) == tree
    ensures IsLong(EntryAt(c, tree, v, Reserved).enc) ==> v in tree
  {
    assert v in tree[v := EntryAt(c, tree, v, Reserved)];
  }

  lemma ReservingTwice(c: Codec, tree: Tree, v: VPath)
    requires v != [] && IsDirectory(tree, Parent(v))
    ensures var r := Reserving(c, tree, v);
            IsDirectory(r, Parent(v)) && Reserving(c, r, v) == r && FilePathOf(c, r, v) == FilePathOf(c, tree, v)
            && (IsDirectory(r, v) == IsDirectory(tree, v))
  {
    assert |Parent(v)| < |v|;
  }

  lemma PlainReserving(c: Codec, tree: Tree, v: VPath)
    requires v != [] && IsDirectory(tree, Parent(v))
    ensures Plain(Reserving(c, tree, v)) == Plain(tree)
  {
  }

  /** A name that is no directory may be replaced by a file or, unless it is a file, by a directory. */
  lemma ReplacementFits(c: Codec, root: Path, tree: Tree, v: VPath, kind: Kind)
    requires Lawful(c) && TreeOk(c, root, tree) && v in tree && v != [] && !tree[v].kind.Directory? && !kind.Reserved?
    requires kind.Directory? ==> tree[v].kind.Reserved?
    ensures IsDirectory(tree, Parent(v)) && Fits(c, tree, v, EntryAt(c, tree, v, kind))
  {
    EntryFacts(c, root, tree, v);
  }

  lemma StoreGrows(c: Codec, root: Path, files: Files, tree: Tree, v: VPath, data: string)
    requires Agree(c, root, files, tree) && v != [] && Base(v) != ""
    requires IsDirectory(tree, Parent(v)) && !IsDirectory(tree, v)
    requires IsLong(EntryAt(c, tree, v, Regular(data)).enc) ==> v in tree
    ensures Agree(c, root, files[FilePathOf(c, tree, v) := File(data)], tree[v := EntryAt(c, tree, v, Regular(data))])
  {
    hide Stored, NothingElse, Fits, Linked;
    var e := EntryAt(c, tree, v, Regular(data));
    if v in tree {
      ReplacementFits(c, root, tree, v, Regular(data));
    } else {
      PlaceIsFree(c, root, files, tree, v, Regular(data));
    }
    if IsLong(e.enc) {
      hide NameWritten, Written;
      EntryFacts(c, root, tree, v);
      NameIsWritten(c, root, files, tree, v);
      SlotIsDir(c, root, files, tree, v);
      WrittenLongFile(files, e);
      assert FilePathOf(c, tree, v) == e.slot + [CONTENTS_FILE];
    } else {
      assert files + Written(e) == files[e.slot := File(data)];
    }
    AgreeGrows(c, root, files, tree, v, e);
  }

  lemma SlotIsDir(c: Codec, root: Path, files: Files, tree: Tree, v: VPath)
    requires Agree(c, root, files, tree) && v in tree && (tree[v].kind.Regular? ==> IsLong(tree[v].enc))
    ensures tree[v].slot in files && files[tree[v].slot] == Dir
  {
    assert HasPart(tree[v], Itself) && PartPath(tree[v], Itself) in files;
  }

  /** The disk after CreateEncryptedDirectory has made the place, its metadata if the name is long, and the id. */
  function DirectoryWritten(files: Files, e: Entry): Files
    requires e.kind.Directory?
  {
    var named := if IsLong(e.enc) then NameWritten(files, e.slot, e.enc) else files[e.slot := Dir];
    named[e.slot + [DIR_ID_FILE] := File(e.kind.id)]
  }

  lemma CreateGrows(c: Codec, root: Path, files: Files, tree: Tree, v: VPath, id: string)
    requires Agree(c, root, files, tree) && v != [] && Base(v) != "" && IsDirectory(tree, Parent(v))
    requires v in tree ==> tree[v].kind.Reserved?
    ensures var e := EntryAt(c, tree, v, Directory(id)); Agree(c, root, DirectoryWritten(files, e), tree[v := e])
    ensures EntryAt(c, tree, v, Directory(id)).slot in files ==> IsLong(EntryAt(c, tree, v, Directory(id)).enc)
  {
    hide Stored, NothingElse, Fits, Linked, Written, NameWritten;
    var e := EntryAt(c, tree, v, Directory(id));
    if v in tree {
      ReplacementFits(c, root, tree, v, Directory(id));
      EntryFacts(c, root, tree, v);
      SlotIsDir(c, root, files, tree, v);
    } else {
      PlaceIsFree(c, root, files, tree, v, Directory(id));
    }
    WrittenDirectory(files, e);
    AgreeGrows(c, root, files, tree, v, e);
  }

  lemma ParentResolves(c: Codec, root: Path, files: Files, tree: Tree, v: VPath)
    requires Agree(c, root, files, tree) && v in tree && v != []
    ensures IsDirectory(tree, Parent(v))
  {
    assert Linked(c, tree, v);
  }

  /** Where a walk down a path that is no directory stops: the first name on the way that is not one. */
  function StopsAt(tree: Tree, parts: VPath): (v: VPath)
    requires IsDirectory(tree, []) && !IsDirectory(tree, parts)
    ensures v != [] && v <= parts && IsDirectory(tree, Parent(v)) && !IsDirectory(tree, v)
    decreases |parts|
  {
    if IsDirectory(tree, Parent(parts)) then parts else StopsAt(tree, Parent(parts))
  }

  lemma {:induction false} StopsHere(c: Codec, root: Path, tree: Tree, parts: VPath, i: nat)
    requires TreeOk(c, root, tree) && i < |parts| && !IsDirectory(tree, parts)
    requires IsDirectory(tree, parts[..i]) && !IsDirectory(tree, parts[..i + 1])
    ensures StopsAt(tree, parts) == parts[..i + 1]
    decreases |parts|
  {
    assert parts[..|parts|] == parts && parts[..|parts| - 1] == Parent(parts);
    if i + 1 < |parts| {
      assert Parent(parts)[..i] == parts[..i] && Parent(parts)[..i + 1] == parts[..i + 1];
      if IsDirectory(tree, Parent(parts)) {
        AncestorsAreDirectories(c, root, tree, Parent(parts), i + 1);
      } else {
        StopsHere(c, root, tree, Parent(parts), i);
      }
    }
  }

  /** One round of ResolvePath's loop: the probe succeeds exactly on directories, and the walk stops at the others. */
  lemma ResolveStep(c: Codec, root: Path, files: Files, tree: Tree, parts: VPath, i: nat)
    requires Agree(c, root, files, tree) && i < |parts| && parts[i] != "" && IsDirectory(tree, parts[..i])
    ensures IsDirectory(tree, [])
    ensures var place := PlaceOf(c, tree[parts[..i]], parts[i]);
            var next := parts[..i + 1];
            && next == parts[..i] + [parts[i]]
            && (place + [DIR_ID_FILE] in files <==> IsDirectory(tree, next))
            && (IsDirectory(tree, next) ==>
                  tree[next].slot == place && files[place + [DIR_ID_FILE]] == File(tree[next].kind.id))
            && (!IsDirectory(tree, next) ==> !IsDirectory(tree, parts) && StopsAt(tree, parts) == next)
  {
    hide Stored, NothingElse, Linked, Lawful;
    assert parts[..i + 1] == parts[..i] + [parts[i]];
    ProbeFindsDirectory(c, root, files, tree, parts[..i], parts[i]);
    assert parts[..|parts|] == parts;
    if !IsDirectory(tree, parts[..i + 1]) {
      if IsDirectory(tree, parts) {
        AncestorsAreDirectories(c, root, tree, parts, i + 1);
      }
      StopsHere(c, root, tree, parts, i);
    }
  }

  // ---- Sequences of operations ----

  /** A directory to create, with the id it will get; a path to ask for, for a later write; or a file to write. */
  datatype Op =
    | MakeDirectory(path: VPath, id: string)
    | AskForPath(path: VPath)
    | WriteContents(path: VPath, data: string)

  /** A single-segment name, new for a directory and no directory for a write, in an existing directory. */
  predicate Allowed(t: PlainTree, op: Op) {
    && op.path != [] && (forall i :: 0 <= i < |op.path| ==> op.path[i] != "") && IsPlainDir(t, Parent(op.path))
    && (op.MakeDirectory? ==> op.path !in t)
    && (op.WriteContents? ==> !IsPlainDir(t, op.path))
  }

  function Applied(t: PlainTree, op: Op): (t': PlainTree) {
    match op
    case MakeDirectory(path, _) => t[path := PlainDir]
    case AskForPath(_) => t
    case WriteContents(path, data) => t[path := PlainFile(data)]
  }

  predicate AllAllowed(t: PlainTree, ops: seq<Op>)
    decreases |ops|
  {
    ops == [] || (Allowed(t, ops[0]) && AllAllowed(Applied(t, ops[0]), ops[1..]))
  }

  function After(t: PlainTree, ops: seq<Op>): (t': PlainTree)
    decreases |ops|
  {
    if ops == [] then t else After(Applied(t, ops[0]), ops[1..])
  }

  lemma {:induction false} AllAllowedSplits(t: PlainTree, ops: seq<Op>, more: seq<Op>)
    ensures AllAllowed(t, ops + more) <==> AllAllowed(t, ops) && AllAllowed(After(t, ops), more)
    ensures After(t, ops + more) == After(After(t, ops), more)
    decreases |ops|
  {
    if ops == [] {
      assert ops + more == more;
    } else {
      assert (ops + more)[0] == ops[0] && (ops + more)[1..] == ops[1..] + more;
      AllAllowedSplits(Applied(t, ops[0]), ops[1..], more);
    }
  }

  /** A directory stays a directory and a file stays a file. */
  lemma {:induction false} KindsStay(t: PlainTree, ops: seq<Op>, v: VPath)
    requires AllAllowed(t, ops) && v in t
    ensures v in After(t, ops) && After(t, ops)[v].PlainDir? == t[v].PlainDir?
    decreases |ops|
  {
    if ops != [] {
      KindsStay(Applied(t, ops[0]), ops[1..], v);
    }
  }

  /** Every file comes from a write. */
  lemma {:induction false} FileWasWritten(t: PlainTree, ops: seq<Op>, v: VPath) returns (i: nat)
    requires v in After(t, ops) && After(t, ops)[v].PlainFile? && !(v in t && t[v].PlainFile?)
    ensures i < |ops| && ops[i].WriteContents? && ops[i].path == v
    decreases |ops|
  {
    assert ops != [];
    var t' := Applied(t, ops[0]);
    if v in t' && t'[v].PlainFile? {
      i := 0;
    } else {
      var j := FileWasWritten(t', ops[1..], v);
      i := j + 1;
    }
  }

  /** No entry goes, no directory is moved or gets another id, and entries not changed are not touched at all. */
  ghost predicate Keeps(tree: Tree, tree': Tree, changed: set<VPath>) {
    forall u :: u in tree ==> u in tree' && (u !in changed || tree[u].kind.Directory? ==> tree'[u] == tree[u])
  }

  /** So a path that was given stays the path of its name, and a reserved place stays reserved. */
  lemma PathsStay(c: Codec, tree: Tree, tree': Tree, changed: set<VPath>, v: VPath)
    requires Keeps(tree, tree', changed) && v != [] && IsDirectory(tree, Parent(v))
    ensures IsDirectory(tree', Parent(v)) && FilePathOf(c, tree', v) == FilePathOf(c, tree, v)
    ensures Reserving(c, tree, v) == tree ==> Reserving(c, tree', v) == tree'
  {
    if Reserving(c, tree, v) == tree {
      LongIsReserved(c, tree, v);
    }
  }

  // ---- Walking ----

  /** Everything but the root is in a directory. */
  ghost predicate Rooted(t: PlainTree) {
    IsPlainDir(t, []) && forall u :: u in t && u != [] ==> IsPlainDir(t, Parent(u))
  }

  lemma PlainIsRooted(c: Codec, root: Path, files: Files, tree: Tree)
    requires Agree(c, root, files, tree)
    ensures Rooted(Plain(tree))
  {
    hide Stored, NothingElse, Lawful;
    forall u | u in tree && u != [] ensures IsDirectory(tree, Parent(u)) {
      assert Linked(c, tree, u);
    }
  }

  lemma {:induction false} PrefixesAreDirs(t: PlainTree, u: VPath, i: nat)
    requires Rooted(t) && u in t && i < |u|
    ensures IsPlainDir(t, u[..i])
    decreases |u|
  {
    if i < |u| - 1 {
      PrefixesAreDirs(t, Parent(u), i);
      assert Parent(u)[..i] == u[..i];
    } else {
      assert u[..i] == Parent(u);
    }
  }

  /** Both paths are entries at or below v; the walk recurs on fewer of them. */
  function AtOrBelow(t: PlainTree, v: VPath): (r: set<VPath>) {
    set u | u in t && v <= u
  }

  lemma FewerBelow(t: PlainTree, v: VPath, child: VPath)
    requires v in t && v < child
    ensures |AtOrBelow(t, child)| < |AtOrBelow(t, v)|
  {
    assert AtOrBelow(t, child) <= AtOrBelow(t, v) - {v};
    SubsetSize(AtOrBelow(t, child), AtOrBelow(t, v) - {v});
  }

  lemma {:induction false} SubsetSize<T>(a: set<T>, b: set<T>)
    requires a <= b
    ensures |a| <= |b|
  {
    if a != {} {
      var x :| x in a;
      SubsetSize(a - {x}, b - {x});
    }
  }

  /** more has each file at or below the child once, and nothing else. */
  ghost predicate VisitsChild(t: PlainTree, v: VPath, child: VPath, more: seq<Visit>) {
    && (forall i :: 0 <= i < |more| ==> IsVisit(t, v, more[i]) && child <= more[i].path)
    && (forall u :: u in t && t[u].PlainFile? && child <= u ==> exists i :: 0 <= i < |more| && more[i].path == u)
    && (forall i, j :: 0 <= i < j < |more| ==> more[i].path != more[j].path)
  }

  function ChildOf(v: VPath, info: FileInfo): VPath {
    v + [info.name]
  }

  /** The path is at or below one of the first n entries of a listing. */
  ghost predicate UnderEntry(v: VPath, infos: seq<FileInfo>, n: nat, path: VPath)
    requires n <= |infos|
  {
    exists k :: 0 <= k < n && ChildOf(v, infos[k]) <= path
  }

  /** The first n entries of a listing have been walked. */
  ghost predicate Walked(t: PlainTree, v: VPath, infos: seq<FileInfo>, n: nat, visits: seq<Visit>)
    requires n <= |infos|
  {
    && (forall i :: 0 <= i < |visits| ==>
          IsVisit(t, v, visits[i]) && UnderEntry(v, infos, n, visits[i].path))
    && (forall k, u :: 0 <= k < n && u in t && t[u].PlainFile? && ChildOf(v, infos[k]) <= u ==>
          exists i :: 0 <= i < |visits| && visits[i].path == u)
    && (forall i, j :: 0 <= i < j < |visits| ==> visits[i].path != visits[j].path)
  }

  /** Visits to different children of v differ. */
  lemma ChildrenApart(v: VPath, x: FileInfo, y: FileInfo, a: VPath, b: VPath)
    requires x.name != y.name && ChildOf(v, x) <= a && ChildOf(v, y) <= b
    ensures a != b
  {
    assert a[|v|] == ChildOf(v, x)[|v|] && b[|v|] == ChildOf(v, y)[|v|];
  }

  lemma MoreUnderEntries(t: PlainTree, v: VPath, infos: seq<FileInfo>, n: nat, visits: seq<Visit>, more: seq<Visit>,
                         i: nat)
    requires n < |infos| && Walked(t, v, infos, n, visits) && VisitsChild(t, v, ChildOf(v, infos[n]), more)
    requires i < |visits + more|
    ensures IsVisit(t, v, (visits + more)[i]) && UnderEntry(v, infos, n + 1, (visits + more)[i].path)
  {
    hide IsVisit, ChildOf;
    if i < |visits| {
      assert UnderEntry(v, infos, n, visits[i].path);
      var k :| 0 <= k < n && ChildOf(v, infos[k]) <= visits[i].path;
      assert ChildOf(v, infos[k]) <= (visits + more)[i].path;
    } else {
      assert (visits + more)[i] == more[i - |visits|];
      assert ChildOf(v, infos[n]) <= more[i - |visits|].path;
    }
  }

  lemma MoreReached(t: PlainTree, v: VPath, infos: seq<FileInfo>, n: nat, visits: seq<Visit>, more: seq<Visit>,
                    k: nat, u: VPath)
    requires n < |infos| && Walked(t, v, infos, n, visits) && VisitsChild(t, v, ChildOf(v, infos[n]), more)
    requires k <= n && u in t && t[u].PlainFile? && ChildOf(v, infos[k]) <= u
    ensures exists i :: 0 <= i < |visits + more| && (visits + more)[i].path == u
  {
    hide IsVisit, ChildOf, UnderEntry;
    if k < n {
      var i :| 0 <= i < |visits| && visits[i].path == u;
      assert (visits + more)[i].path == u;
    } else {
      var i :| 0 <= i < |more| && more[i].path == u;
      assert (visits + more)[|visits| + i].path == u;
    }
  }

  lemma WalkedMore(t: PlainTree, v: VPath, infos: seq<FileInfo>, n: nat, visits: seq<Visit>, more: seq<Visit>)
    requires Lists(t, v, infos) && n < |infos| && Walked(t, v, infos, n, visits)
    requires VisitsChild(t, v, ChildOf(v, infos[n]), more)
    ensures Walked(t, v, infos, n + 1, visits + more)
  {
    hide IsVisit, InfoOf, ChildOf;
    forall i | 0 <= i < |visits + more|
      ensures IsVisit(t, v, (visits + more)[i]) && UnderEntry(v, infos, n + 1, (visits + more)[i].path)
    {
      MoreUnderEntries(t, v, infos, n, visits, more, i);
    }
    forall k, u | 0 <= k < n + 1 && u in t && t[u].PlainFile? && ChildOf(v, infos[k]) <= u
      ensures exists i :: 0 <= i < |visits + more| && (visits + more)[i].path == u
    {
      MoreReached(t, v, infos, n, visits, more, k, u);
    }
    forall i, j | 0 <= i < |visits| && 0 <= j < |more| ensures visits[i].path != more[j].path {
      assert UnderEntry(v, infos, n, visits[i].path);
      var k :| 0 <= k < n && ChildOf(v, infos[k]) <= visits[i].path;
      ChildrenApart(v, infos[k], infos[n], visits[i].path, more[j].path);
    }
    Apart(visits, more);
  }

  lemma Apart(a: seq<Visit>, b: seq<Visit>)
    requires forall i, j :: 0 <= i < j < |a| ==> a[i].path != a[j].path
    requires forall i, j :: 0 <= i < j < |b| ==> b[i].path != b[j].path
    requires forall i, j :: 0 <= i < |a| && 0 <= j < |b| ==> a[i].path != b[j].path
    ensures forall i, j :: 0 <= i < j < |a + b| ==> (a + b)[i].path != (a + b)[j].path
  {
  }

  /** A file below v is at or below one of v's listed children. */
  lemma ListedAncestor(t: PlainTree, v: VPath, infos: seq<FileInfo>, u: VPath) returns (k: nat)
    requires Rooted(t) && IsPlainDir(t, v) && Lists(t, v, infos) && u in t && t[u].PlainFile? && v <= u
    ensures k < |infos| && ChildOf(v, infos[k]) <= u
  {
    assert |v| == |u| ==> v == u;
    var n := u[|v|];
    assert u[..|v| + 1] == v + [n];
    if |v| + 1 < |u| {
      PrefixesAreDirs(t, u, |v| + 1);
    } else {
      assert u[..|v| + 1] == u;
    }
    k :| 0 <= k < |infos| && infos[k].name == n;
  }

  lemma WalkedAll(t: PlainTree, v: VPath, infos: seq<FileInfo>, visits: seq<Visit>)
    requires Rooted(t) && IsPlainDir(t, v) && Lists(t, v, infos) && Walked(t, v, infos, |infos|, visits)
    ensures VisitsFiles(t, v, visits)
  {
    hide Rooted, Lists, IsVisit, ChildOf;
    forall u | u in t && t[u].PlainFile? && v <= u ensures exists i :: 0 <= i < |visits| && visits[i].path == u {
      var k := ListedAncestor(t, v, infos, u);
    }
  }

  /** A file has nothing below it. */
  lemma FileIsVisited(t: PlainTree, v: VPath, info: FileInfo)
    requires Rooted(t) && ChildOf(v, info) in t && t[ChildOf(v, info)].PlainFile?
    requires info == InfoOf(info.name, t[ChildOf(v, info)])
    ensures VisitsChild(t, v, ChildOf(v, info), [Visit(ChildOf(v, info), info)])
  {
    var child := ChildOf(v, info);
    forall u | u in t && child <= u ensures u == child {
      if |child| < |u| {
        assert u[..|child|] == child;
        PrefixesAreDirs(t, u, |child|);
      }
    }
    assert [Visit(child, info)][0].path == child;
  }

  lemma DirIsVisited(t: PlainTree, v: VPath, info: FileInfo, more: seq<Visit>)
    requires VisitsFiles(t, ChildOf(v, info), more)
    ensures VisitsChild(t, v, ChildOf(v, info), more)
  {
    forall i | 0 <= i < |more| ensures IsVisit(t, v, more[i]) && ChildOf(v, info) <= more[i].path {
      assert IsVisit(t, ChildOf(v, info), more[i]);
    }
  }

  lemma NothingWalked(t: PlainTree, v: VPath, infos: seq<FileInfo>)
    ensures Walked(t, v, infos, 0, [])
  {
  }

  lemma ListedEntry(t: PlainTree, v: VPath, infos: seq<FileInfo>, i: nat)
    requires Lists(t, v, infos) && i < |infos|
    ensures var child := ChildOf(v, infos[i]);
            child in t && infos[i] == InfoOf(infos[i].name, t[child]) && (infos[i].isDir <==> IsPlainDir(t, child))
  {
  }

  lemma NamesAreNotEmpty(c: Codec, root: Path, files: Files, tree: Tree, v: VPath)
    requires Agree(c, root, files, tree) && v in tree
    ensures forall i :: 0 <= i < |v| ==> v[i] != ""
    decreases |v|
  {
    if v != [] {
      ParentResolves(c, root, files, tree, v);
      NamesAreNotEmpty(c, root, files, tree, Parent(v));
      assert Linked(c, tree, v);
      forall i | 0 <= i < |v| ensures v[i] != "" {
        assert i < |v| - 1 ==> v[i] == Parent(v)[i];
      }
    }
  }

  /** What ResolveExistingFilePath looks at. */
  lemma ExistingReads(c: Codec, root: Path, files: Files, tree: Tree, v: VPath)
    requires Agree(c, root, files, tree) && v != [] && Base(v) != "" && IsDirectory(tree, Parent(v))
    ensures var p := tree[Parent(v)];
            var enc, place := c.enc(Base(v), p.kind.id), PlaceOf(c, p, Base(v));
            && (place + [DIR_ID_FILE] in files <==> IsDirectory(tree, v))
            && (IsDirectory(tree, v) ==>
                  && tree[v].slot == place && files[place + [DIR_ID_FILE]].File?
                  && (IsLong(enc) ==>
                        place + [SHORT_NAME_FILE] in files && files[place + [SHORT_NAME_FILE]] == File(enc)))
            && (v in tree && tree[v].kind.Regular? ==>
                  FilePathOf(c, tree, v) in files && files[FilePathOf(c, tree, v)] == File(tree[v].kind.data))
  {
    hide Stored, NothingElse, Linked, Lawful;
    assert v == Parent(v) + [Base(v)];
    ProbeFindsDirectory(c, root, files, tree, Parent(v), Base(v));
    if v in tree {
      PlaceIsSlot(c, root, tree, Parent(v), Base(v));
      EntryReads(c, root, files, tree, v);
    }
  }

  class Vault {
    const codec: Codec
    const root: Path
    const rootDirID: string
    var files: Files
    ghost var tree: Tree

    ghost predicate Valid()
      reads this
    {
      Agree(codec, root, files, tree) && tree[[]].kind.id == rootDirID
    }

    /** A new vault has an empty root directory. */
    constructor (codec: Codec, root: Path, rootDirID: string)
      requires Lawful(codec)
      ensures Valid() && Plain(tree) == map[[] := PlainDir]
      ensures this.codec == codec && this.root == root && this.rootDirID == rootDirID
    {
      this.codec, this.root, this.rootDirID := codec, root, rootDirID;
      files := map[root := Dir, root + [DIR_ID_FILE] := File(rootDirID)];
      tree := map[[] := Entry(Directory(rootDirID), "", root)];
      new;
      assert IsPartOf(root, tree, [], Itself) && IsPartOf(root + [DIR_ID_FILE], tree, [], IdFile);
    }

    // ---- The file system ----

    method ReadFile(path: Path) returns (data: Option<string>)
      ensures data == if path in files && files[path].File? then Some(files[path].data) else None
    {
      if path in files && files[path].File? {
        return Some(files[path].data);
      }
      return None;
    }

    method ReadDir(path: Path) returns (names: set<string>)
      ensures forall x :: x in names <==> path + [x] in files
    {
      names := set p | p in files && |p| == |path| + 1 && p[..|path|] == path :: p[|path|];
      forall x ensures x in names <==> path + [x] in files {
        assert (path + [x])[..|path|] == path;
        forall p | p in files && |p| == |path| + 1 && p[..|path|] == path && p[|path|] == x ensures p == path + [x] {
        }
      }
    }

    /** Directories above it are there already, as ResolvePath found them. */
    method MkdirAll(path: Path)
      modifies this`files
      ensures files == if path in old(files) then old(files) else old(files)[path := Dir]
    {
      if path !in files {
        files := files[path := Dir];
      }
    }

    method WriteFile(path: Path, data: string)
      modifies this`files
      ensures files == old(files)[path := File(data)]
    {
      files := files[path := File(data)];
    }

    // ---- Resolving ----

    /**
     * Walks down while the segments are directories. A directory resolves to itself; on any other path the walk
     * stops at the first name that is no directory, at the place for the contents of a file of that name.
     */
    method ResolvePath(parts: VPath) returns (fsPath: Path, dirID: string)
      requires Valid() && (forall i :: 0 <= i < |parts| ==> parts[i] != "")
      ensures IsDirectory(tree, parts) ==> fsPath == tree[parts].slot && dirID == tree[parts].kind.id
      ensures !IsDirectory(tree, parts) ==>
                var v := StopsAt(tree, parts);
                fsPath == FilePathOf(codec, tree, v) && dirID == tree[Parent(v)].kind.id
    {
      hide Agree, Linked;
      RootIsDirectory(codec, root, files, tree);
      var currentDir, currentDirID := root, rootDirID;
      var i := 0;
      assert parts[..0] == [];
      while i < |parts|
        invariant 0 <= i <= |parts| && IsDirectory(tree, parts[..i])
        invariant currentDir == tree[parts[..i]].slot && currentDirID == tree[parts[..i]].kind.id
      {
        ResolveStep(codec, root, files, tree, parts, i);
        var encName := codec.enc(parts[i], currentDirID);
        var (fsName, isShort) := ShortenEncName(codec, encName);
        var data := ReadFile(currentDir + [fsName] + [DIR_ID_FILE]);
        if data.Some? {
          currentDir, currentDirID := currentDir + [fsName], data.value;
          i := i + 1;
        } else if isShort {
          return currentDir + [fsName] + [CONTENTS_FILE], currentDirID;
        } else {
          return currentDir + [encName + ENCRYPTED_EXT], currentDirID;
        }
      }
      assert parts[..|parts|] == parts;
      return currentDir, currentDirID;
    }

    /** For a file this is where its contents are, for a directory the directory itself; it writes nothing. */
    method ResolveExistingFilePath(v: VPath) returns (path: Path)
      requires Valid() && v != [] && (forall i :: 0 <= i < |v| ==> v[i] != "") && IsDirectory(tree, Parent(v))
      ensures IsDirectory(tree, v) ==> path == tree[v].slot
      ensures !IsDirectory(tree, v) ==> path == FilePathOf(codec, tree, v)
      ensures v in Plain(tree) && Plain(tree)[v].PlainFile? ==>
                path in files && files[path] == File(Plain(tree)[v].data)
    {
      hide Agree, Linked;
      var dirPath, dirID := ResolvePath(Parent(v));
      var encName := codec.enc(Base(v), dirID);
      var (fsName, isShort) := ShortenEncName(codec, encName);
      ExistingReads(codec, root, files, tree, v);
      if isShort {
        var fullEncName := ReadFile(dirPath + [fsName] + [SHORT_NAME_FILE]);
        if fullEncName != Some(encName) {
          return dirPath + [fsName] + [CONTENTS_FILE];
        }
      }
      var id := ReadFile(dirPath + [fsName] + [DIR_ID_FILE]);
      if id.Some? {
        return dirPath + [fsName];
      }
      if isShort {
        return dirPath + [fsName] + [CONTENTS_FILE];
      }
      return dirPath + [encName + ENCRYPTED_EXT];
    }

    // ---- Writing ----

    /**
     * Where the contents of a file belong. For a long name this also writes the name's metadata, which on its
     * own shows no file.
     */
    method GetEncryptedFilePath(v: VPath) returns (path: Path)
      requires Valid() && v != [] && (forall i :: 0 <= i < |v| ==> v[i] != "")
      requires IsDirectory(tree, Parent(v))
      modifies this`files, this`tree
      ensures Valid() && tree == Reserving(codec, old(tree), v) && path == FilePathOf(codec, old(tree), v)
      ensures Plain(tree) == old(Plain(tree)) && Keeps(old(tree), tree, {v})
    {
      hide Agree, Linked;
      var dirPath, dirID := ResolvePath(Parent(v));
      var encName := codec.enc(Base(v), dirID);
      var (fsName, isShort) := ShortenEncName(codec, encName);
      PlainReserving(codec, tree, v);
      if isShort {
        ReserveGrows(codec, root, files, tree, v);
        WriteShortNameFile(dirPath, fsName, encName);
        tree := Reserving(codec, tree, v);
        return dirPath + [fsName] + [CONTENTS_FILE];
      }
      return dirPath + [encName + ENCRYPTED_EXT];
    }

    method WriteShortNameFile(parentDir: Path, shortDirName: string, fullEncName: string)
      modifies this`files
      ensures files == NameWritten(old(files), parentDir + [shortDirName], fullEncName)
    {
      MkdirAll(parentDir + [shortDirName]);
      WriteFile(parentDir + [shortDirName] + [SHORT_NAME_FILE], fullEncName);
    }

    /** A writer's work at a path that was given for the name: the whole contents are written. */
    method WriteAt(v: VPath, path: Path, data: string)
      requires Valid() && v != [] && Base(v) != "" && IsDirectory(tree, Parent(v)) && !IsDirectory(tree, v)
      requires path == FilePathOf(codec, tree, v) && Reserving(codec, tree, v) == tree
      modifies this`files, this`tree
      ensures Valid() && Plain(tree) == old(Plain(tree))[v := PlainFile(data)] && Keeps(old(tree), tree, {v})
      ensures IsDirectory(tree, Parent(v)) && path == FilePathOf(codec, tree, v)
      ensures path in files && files[path] == File(data)
    {
      hide Agree, Linked;
      LongIsReserved(codec, tree, v);
      StoreGrows(codec, root, files, tree, v, data);
      WriteFile(path, data);
      PlainGrows(tree, v, EntryAt(codec, tree, v, Regular(data)));
      tree := tree[v := EntryAt(codec, tree, v, Regular(data))];
    }

    /** Writes the contents of a new or existing file where GetEncryptedFilePath says. */
    method StoreFile(v: VPath, data: string) returns (path: Path)
      requires Valid() && v != [] && (forall i :: 0 <= i < |v| ==> v[i] != "")
      requires IsPlainDir(Plain(tree), Parent(v)) && !IsPlainDir(Plain(tree), v)
      modifies this`files, this`tree
      ensures Valid() && Plain(tree) == old(Plain(tree))[v := PlainFile(data)] && Keeps(old(tree), tree, {v})
      ensures IsDirectory(tree, Parent(v)) && path == FilePathOf(codec, tree, v)
      ensures path in files && files[path] == File(data)
    {
      hide Agree, Linked;
      ReservingTwice(codec, tree, v);
      path := GetEncryptedFilePath(v);
      WriteAt(v, path, data);
    }

    /** newDirID is the random id of the new directory. */
    method CreateEncryptedDirectory(v: VPath, newDirID: string)
      requires Valid() && v != [] && (forall i :: 0 <= i < |v| ==> v[i] != "")
      requires IsPlainDir(Plain(tree), Parent(v)) && v !in Plain(tree)
      modifies this`files, this`tree
      ensures Valid() && Plain(tree) == old(Plain(tree))[v := PlainDir] && Keeps(old(tree), tree, {v})
    {
      hide Agree, Linked;
      var parentPath, parentDirID := ResolvePath(Parent(v));
      var encName := codec.enc(Base(v), parentDirID);
      var (fsName, isShort) := ShortenEncName(codec, encName);
      CreateGrows(codec, root, files, tree, v, newDirID);
      ghost var e := EntryAt(codec, tree, v, Directory(newDirID));
      MkdirAll(parentPath + [fsName]);
      if isShort {
        WriteShortNameFile(parentPath, fsName, encName);
      }
      WriteFile(parentPath + [fsName] + [DIR_ID_FILE], newDirID);
      assert files == DirectoryWritten(old(files), e);
      PlainGrows(tree, v, e);
      tree := tree[v := e];
    }

    // ---- Listing ----

    method DecryptFileName(encName: string, dirID: string) returns (name: Option<string>)
      ensures name == codec.dec(encName, dirID)
    {
      name := codec.dec(encName, dirID);
    }

    /** What ListDirectory appends for one name it finds in a directory, if anything. */
    method Describe(ghost p: VPath, dirPath: Path, dirID: string, name: string) returns (info: Option<FileInfo>)
      requires Valid() && IsDirectory(tree, p) && dirPath == tree[p].slot && dirID == tree[p].kind.id
      requires dirPath + [name] in files
      ensures info.Some? ==> Shows(codec, tree, p, name, info.value)
      ensures info.None? ==> ShowsNothing(codec, tree, p, name)
    {
      ghost var n := OneChild(codec, root, files, tree, p, name);
      if IsMetadata(name) {
        MetadataInfo(codec, files, dirPath, dirID, name);
      } else {
        ChildInfo(codec, root, files, tree, p, n);
      }
      hide Agree, Leaf, IsMetadata;
      info := ReadEntry(dirPath, dirID, name);
    }

    method ReadEntry(dirPath: Path, dirID: string, name: string) returns (info: Option<FileInfo>)
      requires dirPath + [name] in files
      ensures info == EntryInfo(codec, files, dirPath, dirID, name)
    {
      if name == DIR_ID_FILE || name == VAULT_CONFIG_FILE || name == ROOT_MAPPING_FILE {
        return None;
      }
      var place := dirPath + [name];
      if HasSuffix(name, SHORT_NAME_DIR) && files[place].Dir? {
        var fullEncName := ReadFile(place + [SHORT_NAME_FILE]);
        if fullEncName.None? {
          return None;
        }
        var decName := DecryptFileName(fullEncName.value, dirID);
        if decName.None? {
          return None;
        }
        if place + [DIR_ID_FILE] in files {
          return Some(FileInfo(decName.value, true, 0, 0));
        }
        var contents := ReadFile(place + [CONTENTS_FILE]);
        if contents.None? {
          return None;
        }
        return Some(FileInfo(decName.value, false, CipherSize2PlaintextSize(|contents.value|), |contents.value|));
      }
      if !HasSuffix(name, ENCRYPTED_EXT) {
        if place + [DIR_ID_FILE] in files {
          var decName := DecryptFileName(name, dirID);
          if decName.Some? {
            return Some(FileInfo(decName.value, true, 0, 0));
          }
        }
        return None;
      }
      var decName := DecryptFileName(name[..|name| - 4], dirID);
      if decName.None? {
        return None;
      }
      var contents := ReadFile(place);
      if contents.None? {
        return None;
      }
      return Some(FileInfo(decName.value, false, CipherSize2PlaintextSize(|contents.value|), |contents.value|));
    }

    /** Lists a directory; anything else cannot be read as one. */
    method ListDirectory(v: VPath) returns (r: Result<seq<FileInfo>, ListError>)
      requires Valid() && (forall i :: 0 <= i < |v| ==> v[i] != "")
      ensures r.Success? <==> IsPlainDir(Plain(tree), v)
      ensures r.Success? ==> Lists(Plain(tree), v, r.value)
    {
      hide Agree, Linked, Lists, ListedFrom, Shows, ShowsNothing;
      var dirPath, dirID := ResolvePath(v);
      if !IsDirectory(tree, v) {
        RootIsDirectory(codec, root, files, tree);
        ContentsAreNoDirectory(codec, root, files, tree, StopsAt(tree, v));
      } else {
        DirectoryIsStored(codec, root, files, tree, v);
      }
      if dirPath !in files || files[dirPath].File? {
        return Failure(NotADirectory);
      }
      var infos := ReadEntries(v, dirPath, dirID);
      return Success(infos);
    }

    /** The loop over the names found in a directory. */
    method ReadEntries(ghost v: VPath, dirPath: Path, dirID: string) returns (infos: seq<FileInfo>)
      requires Valid() && IsDirectory(tree, v) && dirPath == tree[v].slot && dirID == tree[v].kind.id
      ensures Lists(Plain(tree), v, infos)
    {
      hide Agree, Linked, Lists, ListedFrom, Shows, ShowsNothing;
      var names := ReadDir(dirPath);
      infos := [];
      var rest := names;
      NothingListed(codec, tree, v);
      assert names - rest == {};
      while rest != {}
        invariant rest <= names && ListedFrom(codec, tree, v, infos, names - rest)
        decreases |rest|
      {
        var name :| name in rest;
        var info := Describe(v, dirPath, dirID, name);
        AgreeParts(codec, root, files, tree);
        ListedMore(codec, root, tree, v, infos, names - rest, name, info);
        assert names - (rest - {name}) == names - rest + {name};
        if info.Some? {
          infos := infos + [info.value];
        }
        rest := rest - {name};
      }
      assert names - rest == names;
      ListedAll(codec, root, files, tree, v, infos, names);
    }

    /** Visits every file below a directory; the visits stand for the calls of the caller's function. */
    method WalkFiles(v: VPath) returns (visits: seq<Visit>)
      requires Valid() && IsPlainDir(Plain(tree), v)
      ensures VisitsFiles(Plain(tree), v, visits)
      decreases |AtOrBelow(Plain(tree), v)|
    {
      hide Agree, Linked, Lists, Rooted, Walked, VisitsChild, VisitsFiles;
      ghost var t := Plain(tree);
      PlainIsRooted(codec, root, files, tree);
      NamesAreNotEmpty(codec, root, files, tree, v);
      var entries := ListDirectory(v);
      var infos := entries.value;
      visits := [];
      NothingWalked(t, v, infos);
      var i := 0;
      while i < |infos|
        invariant 0 <= i <= |infos| && Walked(t, v, infos, i, visits)
      {
        var childPath := v + [infos[i].name];
        ListedEntry(t, v, infos, i);
        var more;
        if infos[i].isDir {
          FewerBelow(t, v, childPath);
          more := WalkFiles(childPath);
          DirIsVisited(t, v, infos[i], more);
        } else {
          more := [Visit(childPath, infos[i])];
          FileIsVisited(t, v, infos[i]);
        }
        WalkedMore(t, v, infos, i, visits, more);
        visits := visits + more;
        i := i + 1;
      }
      WalkedAll(t, v, infos, visits);
    }

    // ---- Any sequence of operations ----

    /**
     * The encrypted tree follows the plain tree through any sequence of operations, and each path given on the
     * way is the path of its name at the end. An operation that gives no path leaves [] in its place.
     */
    method Replay(ops: seq<Op>) returns (paths: seq<Path>)
      requires Valid() && AllAllowed(Plain(tree), ops)
      modifies this`files, this`tree
      ensures Valid() && Plain(tree) == After(old(Plain(tree)), ops)
      ensures Keeps(old(tree), tree, Changed(ops))
      ensures |paths| == |ops|
      ensures forall i :: 0 <= i < |ops| && !ops[i].MakeDirectory? ==> IsPathOf(codec, tree, ops[i].path, paths[i])
    {
      hide Agree, AllAllowed, After, FilePathOf, Plain;
      ghost var t := Plain(tree);
      paths := [];
      NothingReplayed(t);
      assert ops[..0] == [];
      while |paths| < |ops|
        invariant |paths| <= |ops| && Valid()
        invariant Plain(tree) == After(t, ops[..|paths|])
        invariant Keeps(old(tree), tree, Changed(ops))
        invariant forall i :: 0 <= i < |paths| && !ops[i].MakeDirectory? ==>
                    IsPathOf(codec, tree, ops[i].path, paths[i])
      {
        var i := |paths|;
        ghost var before := tree;
        NextAllowed(t, ops, i);
        PlainKinds(tree, Parent(ops[i].path));
        var path: Path := [];
        match ops[i] {
          case MakeDirectory(v, id) => CreateEncryptedDirectory(v, id);
          case AskForPath(v) =>
            path := GetEncryptedFilePath(v);
            PathsStay(codec, before, tree, {v}, v);
          case WriteContents(v, data) => path := StoreFile(v, data);
        }
        AllPathsStay(codec, before, tree, ops, i, paths);
        paths := paths + [path];
      }
      assert ops[..|ops|] == ops;
    }
  }

  function Changed(ops: seq<Op>): (r: set<VPath>) {
    set i | 0 <= i < |ops| :: ops[i].path
  }

  /** The path is where the contents of a file of this name belong. */
  ghost predicate IsPathOf(c: Codec, tree: Tree, v: VPath, path: Path) {
    v != [] && IsDirectory(tree, Parent(v)) && path == FilePathOf(c, tree, v)
  }

  lemma NothingReplayed(t: PlainTree)
    ensures After(t, []) == t
  {
  }

  lemma NextAllowed(t: PlainTree, ops: seq<Op>, i: nat)
    requires AllAllowed(t, ops) && i < |ops|
    ensures Allowed(After(t, ops[..i]), ops[i])
    ensures After(t, ops[..i + 1]) == Applied(After(t, ops[..i]), ops[i])
  {
    assert ops == ops[..i] + ops[i..] && ops[..i + 1] == ops[..i] + [ops[i]] && ops[i..][0] == ops[i];
    AllAllowedSplits(t, ops[..i], ops[i..]);
    AllAllowedSplits(t, ops[..i], [ops[i]]);
  }

  lemma AllPathsStay(c: Codec, tree: Tree, tree': Tree, ops: seq<Op>, i: nat, paths: seq<Path>)
    requires i < |ops| && |paths| <= |ops| && Keeps(tree, tree', {ops[i].path})
    ensures forall j :: 0 <= j < |paths| && !ops[j].MakeDirectory? && IsPathOf(c, tree, ops[j].path, paths[j]) ==>
              IsPathOf(c, tree', ops[j].path, paths[j])
    ensures forall t :: Keeps(t, tree, Changed(ops)) ==> Keeps(t, tree', Changed(ops))
  {
    assert ops[i].path in Changed(ops);
    forall j | 0 <= j < |paths| && !ops[j].MakeDirectory? && IsPathOf(c, tree, ops[j].path, paths[j])
      ensures IsPathOf(c, tree', ops[j].path, paths[j])
    {
      PathsStay(c, tree, tree', {ops[i].path}, ops[j].path);
    }
  }

  /** A file is stored; after any sequence of operations it resolves to where it was stored, with its contents there. */
  method StoreThenResolve(vault: Vault, v: VPath, data: string, ops: seq<Op>) returns (stored: Path, resolved: Path)
    requires vault.Valid() && Allowed(Plain(vault.tree), WriteContents(v, data))
    requires AllAllowed(Plain(vault.tree)[v := PlainFile(data)], ops)
    modifies vault`files, vault`tree
    ensures vault.Valid() && stored == resolved
    ensures v in Plain(vault.tree) && Plain(vault.tree)[v].PlainFile?
    ensures resolved in vault.files && vault.files[resolved] == File(Plain(vault.tree)[v].data)
  {
    hide Agree, Plain, FilePathOf;
    stored := vault.StoreFile(v, data);
    KindsStay(Plain(vault.tree), ops, v);
    ghost var before := vault.tree;
    var _ := vault.Replay(ops);
    PathsStay(vault.codec, before, vault.tree, Changed(ops), v);
    PlainKinds(vault.tree, v);
    resolved := vault.ResolveExistingFilePath(v);
  }

  /**
   * A path is asked for, and written to only after any sequence of operations that does not make a directory of
   * the name. After any further sequence the file still resolves to that path, with its contents there.
   */
  method AskWriteResolve(vault: Vault, v: VPath, ops: seq<Op>, data: string, more: seq<Op>)
    returns (given: Path, resolved: Path)
    requires vault.Valid() && Allowed(Plain(vault.tree), AskForPath(v)) && AllAllowed(Plain(vault.tree), ops)
    requires var t := After(Plain(vault.tree), ops); !IsPlainDir(t, v) && AllAllowed(t[v := PlainFile(data)], more)
    modifies vault`files, vault`tree
    ensures vault.Valid() && given == resolved
    ensures v in Plain(vault.tree) && Plain(vault.tree)[v].PlainFile?
    ensures resolved in vault.files && vault.files[resolved] == File(Plain(vault.tree)[v].data)
  {
    hide Agree, Plain, FilePathOf, Reserving;
    PlainKinds(vault.tree, Parent(v));
    ReservingTwice(vault.codec, vault.tree, v);
    given := vault.GetEncryptedFilePath(v);
    ghost var asked := vault.tree;
    var _ := vault.Replay(ops);
    PathsStay(vault.codec, asked, vault.tree, Changed(ops), v);
    PlainKinds(vault.tree, v);
    vault.WriteAt(v, given, data);
    ghost var written := vault.tree;
    KindsStay(Plain(written), more, v);
    var _ := vault.Replay(more);
    PathsStay(vault.codec, written, vault.tree, Changed(more), v);
    PlainKinds(vault.tree, v);
    resolved := vault.ResolveExistingFilePath(v);
  }

  lemma PlainKinds(tree: Tree, v: VPath)
    ensures IsPlainDir(Plain(tree), v) == IsDirectory(tree, v)
  {
  }

  /**
   * From an empty vault: after any sequence of operations a listing and a walk show exactly the plain tree, and
   * a file of it is found at each path that was given for it, with its contents there.
   */
  method BuildAndRead(codec: Codec, root: Path, rootDirID: string, ops: seq<Op>, dir: VPath, file: VPath)
    returns (infos: seq<FileInfo>, visits: seq<Visit>, paths: seq<Path>, found: Path, data: Option<string>)
    requires Lawful(codec) && AllAllowed(map[[] := PlainDir], ops)
    requires var t := After(map[[] := PlainDir], ops);
             IsPlainDir(t, dir) && file in t && t[file].PlainFile?
    ensures var t := After(map[[] := PlainDir], ops);
            && Lists(t, dir, infos) && VisitsFiles(t, [], visits)
            && data == Some(t[file].data) && |paths| == |ops|
            && (exists i :: 0 <= i < |ops| && ops[i].WriteContents? && ops[i].path == file)
            && (forall i :: 0 <= i < |ops| && !ops[i].MakeDirectory? && ops[i].path == file ==> paths[i] == found)
  {
    hide Agree, Plain;
    var vault := new Vault(codec, root, rootDirID);
    paths := vault.Replay(ops);
    var i := FileWasWritten(map[[] := PlainDir], ops, file);
    NamesOf(vault.codec, root, vault.files, vault.tree, dir);
    NamesOf(vault.codec, root, vault.files, vault.tree, file);
    PlainKinds(vault.tree, file);
    PlainIsRooted(codec, root, vault.files, vault.tree);
    PlainKinds(vault.tree, []);
    var listing := vault.ListDirectory(dir);
    infos := listing.value;
    visits := vault.WalkFiles([]);
    found := vault.ResolveExistingFilePath(file);
    data := vault.ReadFile(found);
  }

  /** What is visible is in the tree, so its segments are names. */
  lemma NamesOf(c: Codec, root: Path, files: Files, tree: Tree, v: VPath)
    requires Agree(c, root, files, tree) && v in Plain(tree)
    ensures forall i :: 0 <= i < |v| ==> v[i] != ""
  {
    NamesAreNotEmpty(c, root, files, tree, v);
  }
}
