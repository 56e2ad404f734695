/** The encrypted directory tree on disk and the plain tree it stands for (internal/crypto/vault.go). */
module VaultTree {
  import opened Wrappers

  /** A path of file-system names, and a virtual path of plain names below the vault's root. */
  type Path = seq<string>
  type VPath = seq<string>

  datatype Node = Dir | File(data: string)
  type Files = map<Path, Node>

  const DIR_ID_FILE := "dirid.c9r"
  const SHORT_NAME_FILE := "name.c9r"
  const VAULT_CONFIG_FILE := "vault.json"
  const ROOT_MAPPING_FILE := "root.json"
  const CONTENTS_FILE := "contents.c9r"
  const ENCRYPTED_EXT := ".c9r"
  const SHORT_NAME_DIR := ".c9s"
  const MAX_ENCRYPTED_NAME_LEN := 220

  // ---- Names ----

  /** Name encryption and decryption under a directory id, and the digest of long names. */
  datatype Codec = Codec(
    enc: (string, string) -> string,
    dec: (string, string) -> Option<string>,
    hash: string -> string)

  predicate Dotless(s: string) {
    forall i :: 0 <= i < |s| ==> s[i] != '.'
  }

  /** Decryption undoes encryption; encodings are dotless and longer than eight characters; digests do not collide. */
  ghost predicate Lawful(c: Codec) {
    && (forall n, id :: n != "" ==> c.dec(c.enc(n, id), id) == Some(n))
    && (forall n, id :: Dotless(c.enc(n, id)) && |c.enc(n, id)| > 8)
    && (forall e, id :: |e| <= 8 ==> c.dec(e, id) == None)
    && (forall s :: Dotless(c.hash(s)))
    && (forall s, t :: c.hash(s) == c.hash(t) ==> s == t)
  }

  predicate IsLong(enc: string) {
    |enc| > MAX_ENCRYPTED_NAME_LEN
  }

  /** shortenEncName: the file-system name, and whether it is a shortened one. */
  function ShortenEncName(c: Codec, enc: string): (r: (string, bool)) {
    if IsLong(enc) then (c.hash(enc) + SHORT_NAME_DIR, true) else (enc, false)
  }

  /** Where the contents of a file of this encrypted name live. */
  function ContentPath(c: Codec, dir: Path, enc: string): (r: Path) {
    if IsLong(enc) then dir + [c.hash(enc) + SHORT_NAME_DIR] + [CONTENTS_FILE] else dir + [enc + ENCRYPTED_EXT]
  }

  // ---- The plain tree, annotated with where each entry is on disk ----

  /** Reserved is a long name whose metadata was written for a file that was not. */
  datatype Kind = Directory(id: string) | Regular(data: string) | Reserved
  datatype Entry = Entry(kind: Kind, enc: string, slot: Path)

  type Tree = map<VPath, Entry>

  function Parent(v: VPath): VPath
    requires v != []
  {
    v[..|v| - 1]
  }

  function Base(v: VPath): string
    requires v != []
  {
    v[|v| - 1]
  }

  predicate IsDirectory(tree: Tree, v: VPath) {
    v in tree && tree[v].kind.Directory?
  }

  /** The name of an entry in its parent's directory on disk. */
  function Leaf(c: Codec, kind: Kind, enc: string): string {
    if IsLong(enc) then c.hash(enc) + SHORT_NAME_DIR
    else if kind.Regular? then enc + ENCRYPTED_EXT
    else enc
  }

  /** The entry is named and placed as its parent says. */
  predicate Linked(c: Codec, tree: Tree, v: VPath)
    requires v in tree && v != []
  {
    && IsDirectory(tree, Parent(v)) && Base(v) != ""
    && var e, p := tree[v], tree[Parent(v)];
       && e.enc == c.enc(Base(v), p.kind.id)
       && e.slot == p.slot + [Leaf(c, e.kind, e.enc)]
       && (e.kind.Reserved? ==> IsLong(e.enc))
  }

  ghost predicate TreeOk(c: Codec, root: Path, tree: Tree) {
    && IsDirectory(tree, []) && tree[[]].slot == root && tree[[]].enc == ""
    && forall v :: v in tree && v != [] ==> Linked(c, tree, v)
  }

  // ---- What an entry looks like on disk ----

  datatype Part = Itself | IdFile | NameFile | Contents

  predicate HasPart(e: Entry, part: Part) {
    match part
    case Itself => true
    case IdFile => e.kind.Directory?
    case NameFile => IsLong(e.enc)
    case Contents => IsLong(e.enc) && e.kind.Regular?
  }

  function PartPath(e: Entry, part: Part): Path {
    match part
    case Itself => e.slot
    case IdFile => e.slot + [DIR_ID_FILE]
    case NameFile => e.slot + [SHORT_NAME_FILE]
    case Contents => e.slot + [CONTENTS_FILE]
  }

  function PartNode(e: Entry, part: Part): Node
    requires HasPart(e, part)
  {
    match part
    case Itself => if e.kind.Regular? && !IsLong(e.enc) then File(e.kind.data) else Dir
    case IdFile => File(e.kind.id)
    case NameFile => File(e.enc)
    case Contents => File(e.kind.data)
  }

  /** Every part of every entry is on disk. */
  ghost predicate Stored(files: Files, tree: Tree) {
    forall v, part :: v in tree && HasPart(tree[v], part) ==>
      PartPath(tree[v], part) in files && files[PartPath(tree[v], part)] == PartNode(tree[v], part)
  }

  ghost predicate IsPartOf(path: Path, tree: Tree, v: VPath, part: Part) {
    v in tree && HasPart(tree[v], part) && path == PartPath(tree[v], part)
  }

  /** Nothing else is on disk. */
  ghost predicate NothingElse(files: Files, tree: Tree) {
    forall path :: path in files ==> exists v, part :: IsPartOf(path, tree, v, part)
  }

  ghost predicate Agree(c: Codec, root: Path, files: Files, tree: Tree) {
    Lawful(c) && TreeOk(c, root, tree) && Stored(files, tree) && NothingElse(files, tree)
  }

  // ---- Distinct entries share no name on disk ----

  lemma EncodingsDiffer(c: Codec, m: string, n: string, id: string)
    requires Lawful(c) && m != "" && n != "" && c.enc(m, id) == c.enc(n, id)
    ensures m == n
  {
    assert c.dec(c.enc(m, id), id) == Some(m);
  }

  /** On disk an entry's name tells its encrypted name, and directories from files unless the name is long. */
  lemma LeavesDiffer(c: Codec, k: Kind, e: string, k': Kind, e': string)
    requires Lawful(c) && Dotless(e) && Dotless(e') && |e| > 8 && |e'| > 8
    requires Leaf(c, k, e) == Leaf(c, k', e')
    ensures e == e' && (IsLong(e) || k.Regular? == k'.Regular?)
  {
    var l, l' := Leaf(c, k, e), Leaf(c, k', e');
    assert l[|l| - 1] == l'[|l'| - 1];
    assert IsLong(e') || k'.Regular? ==> l'[|l'| - 4] == '.';
    if IsLong(e) {
      assert l[|l| - 4] == '.' && l[|l| - 1] == 's';
      assert l[..|l| - 4] == c.hash(e);
      assert IsLong(e') && l'[..|l'| - 4] == c.hash(e');
    } else if k.Regular? {
      assert l[|l| - 4] == '.' && l[|l| - 1] == 'r';
      assert l[..|l| - 4] == e;
      assert !IsLong(e') && k'.Regular? && l'[..|l'| - 4] == e';
    }
  }

  /** The names the vault uses for itself. */
  predicate IsMetadata(name: string) {
    || name == DIR_ID_FILE || name == SHORT_NAME_FILE || name == CONTENTS_FILE
    || name == VAULT_CONFIG_FILE || name == ROOT_MAPPING_FILE
  }

  lemma LeafIsNotMetadata(c: Codec, k: Kind, e: string)
    requires Lawful(c) && Dotless(e) && |e| > 8
    ensures !IsMetadata(Leaf(c, k, e))
  {
    var l := Leaf(c, k, e);
    assert VAULT_CONFIG_FILE[9] == 'n' && ROOT_MAPPING_FILE[8] == 'n';
    if IsLong(e) {
      assert l[|l| - 1] == 's';
    } else if k.Regular? {
      assert |l| > 12;
    } else {
      assert DIR_ID_FILE[5] == '.' && SHORT_NAME_FILE[4] == '.' && CONTENTS_FILE[8] == '.';
      assert VAULT_CONFIG_FILE[5] == '.' && ROOT_MAPPING_FILE[4] == '.';
    }
  }

  lemma EntryFacts(c: Codec, root: Path, tree: Tree, v: VPath)
    requires Lawful(c) && TreeOk(c, root, tree) && v in tree && v != []
    ensures IsDirectory(tree, Parent(v)) && Base(v) != "" && v == Parent(v) + [Base(v)]
    ensures var e := tree[v];
            && e.enc == c.enc(Base(v), tree[Parent(v)].kind.id) && Dotless(e.enc) && |e.enc| > 8
            && e.slot == tree[Parent(v)].slot + [Leaf(c, e.kind, e.enc)]
            && !IsMetadata(Leaf(c, e.kind, e.enc))
            && (e.kind.Reserved? ==> IsLong(e.enc))
  {
    assert Linked(c, tree, v);
    LeafIsNotMetadata(c, tree[v].kind, tree[v].enc);
  }

  lemma {:induction false} SlotLength(c: Codec, root: Path, tree: Tree, v: VPath)
    requires Lawful(c) && TreeOk(c, root, tree) && v in tree
    ensures |tree[v].slot| == |root| + |v|
    decreases |v|
  {
    if v != [] {
      EntryFacts(c, root, tree, v);
      SlotLength(c, root, tree, Parent(v));
    }
  }

  lemma {:induction false} SlotsDiffer(c: Codec, root: Path, tree: Tree, u: VPath, v: VPath)
    requires Lawful(c) && TreeOk(c, root, tree) && u in tree && v in tree && tree[u].slot == tree[v].slot
    ensures u == v
    decreases |u|
  {
    SlotLength(c, root, tree, u);
    SlotLength(c, root, tree, v);
    if u != [] {
      EntryFacts(c, root, tree, u);
      EntryFacts(c, root, tree, v);
      var e, f := tree[u], tree[v];
      SplitLast(tree[Parent(u)].slot, Leaf(c, e.kind, e.enc), tree[Parent(v)].slot, Leaf(c, f.kind, f.enc));
      SlotsDiffer(c, root, tree, Parent(u), Parent(v));
      LeavesDiffer(c, e.kind, e.enc, f.kind, f.enc);
      EncodingsDiffer(c, Base(u), Base(v), tree[Parent(u)].kind.id);
    }
  }

  lemma SplitLast(a: Path, x: string, b: Path, y: string)
    requires a + [x] == b + [y]
    ensures a == b && x == y
  {
    assert |a| == |b|;
    assert (a + [x])[|a|] == (b + [y])[|a|];
    assert a == (a + [x])[..|a|] == (b + [y])[..|a|] == b;
  }

  /** No part of an entry is in the place of a part of another. */
  lemma PartsDiffer(c: Codec, root: Path, tree: Tree, u: VPath, part: Part, v: VPath, part': Part)
    requires Lawful(c) && TreeOk(c, root, tree) && u in tree && v in tree
    requires PartPath(tree[u], part) == PartPath(tree[v], part')
    ensures u == v && part == part'
  {
    SlotLength(c, root, tree, u);
    SlotLength(c, root, tree, v);
    if part.Itself? && part'.Itself? {
      SlotsDiffer(c, root, tree, u, v);
    } else if part.Itself? {
      ItselfIsNoMetadata(c, root, tree, u, tree[v].slot, MetadataName(part'));
    } else if part'.Itself? {
      ItselfIsNoMetadata(c, root, tree, v, tree[u].slot, MetadataName(part));
    } else {
      SplitLast(tree[u].slot, MetadataName(part), tree[v].slot, MetadataName(part'));
      SlotsDiffer(c, root, tree, u, v);
    }
  }

  function MetadataName(part: Part): (name: string)
    requires !part.Itself?
    ensures IsMetadata(name)
  {
    match part
    case IdFile => DIR_ID_FILE
    case NameFile => SHORT_NAME_FILE
    case Contents => CONTENTS_FILE
  }

  lemma ItselfIsNoMetadata(c: Codec, root: Path, tree: Tree, u: VPath, dir: Path, name: string)
    requires Lawful(c) && TreeOk(c, root, tree) && u in tree && IsMetadata(name) && |dir| >= |root|
    ensures tree[u].slot != dir + [name]
  {
    SlotLength(c, root, tree, u);
    if tree[u].slot == dir + [name] {
      EntryFacts(c, root, tree, u);
      SplitLast(tree[Parent(u)].slot, Leaf(c, tree[u].kind, tree[u].enc), dir, name);
      assert false;
    }
  }

  // ---- Looking entries up on disk ----

  /** An entry placed in a directory is that directory's child. */
  lemma SlotOfChild(c: Codec, root: Path, tree: Tree, p: VPath, v: VPath, x: string)
    requires Lawful(c) && TreeOk(c, root, tree) && IsDirectory(tree, p)
    requires v in tree && tree[v].slot == tree[p].slot + [x]
    ensures v != [] && Parent(v) == p && Leaf(c, tree[v].kind, tree[v].enc) == x
  {
    SlotLength(c, root, tree, p);
    SlotLength(c, root, tree, v);
    EntryFacts(c, root, tree, v);
    SplitLast(tree[Parent(v)].slot, Leaf(c, tree[v].kind, tree[v].enc), tree[p].slot, x);
    SlotsDiffer(c, root, tree, Parent(v), p);
  }

  /** What is on disk in a directory, metadata apart, are its children. */
  lemma ChildOnDisk(c: Codec, root: Path, files: Files, tree: Tree, p: VPath, x: string) returns (n: string)
    requires Agree(c, root, files, tree) && IsDirectory(tree, p) && tree[p].slot + [x] in files && !IsMetadata(x)
    ensures p + [n] in tree && n != "" && Leaf(c, tree[p + [n]].kind, tree[p + [n]].enc) == x
  {
    var v, part :| IsPartOf(tree[p].slot + [x], tree, v, part);
    if !part.Itself? {
      SplitLast(tree[p].slot, x, tree[v].slot, MetadataName(part));
      assert false;
    }
    SlotOfChild(c, root, tree, p, v, x);
    EntryFacts(c, root, tree, v);
    n := Base(v);
  }

  /** A metadata file below a directory's child belongs to that child. */
  lemma MetadataOnDisk(c: Codec, root: Path, files: Files, tree: Tree, p: VPath, x: string, part: Part)
    returns (v: VPath)
    requires Agree(c, root, files, tree) && IsDirectory(tree, p) && !part.Itself?
    requires tree[p].slot + [x] + [MetadataName(part)] in files
    ensures v in tree && v != [] && Parent(v) == p && HasPart(tree[v], part) && Leaf(c, tree[v].kind, tree[v].enc) == x
  {
    var path := tree[p].slot + [x] + [MetadataName(part)];
    var part';
    v, part' :| IsPartOf(path, tree, v, part');
    SlotLength(c, root, tree, p);
    if part'.Itself? {
      ItselfIsNoMetadata(c, root, tree, v, tree[p].slot + [x], MetadataName(part));
      assert false;
    }
    SplitLast(tree[p].slot + [x], MetadataName(part), tree[v].slot, MetadataName(part'));
    SlotOfChild(c, root, tree, p, v, x);
  }

  /** The place of a name in a directory, as every operation computes it. */
  function PlaceOf(c: Codec, dir: Entry, n: string): Path
    requires dir.kind.Directory?
  {
    dir.slot + [ShortenEncName(c, c.enc(n, dir.kind.id)).0]
  }

  /** A metadata file below the place of a name belongs to the entry of that name. */
  lemma MetadataOfName(c: Codec, root: Path, files: Files, tree: Tree, p: VPath, n: string, part: Part)
    requires Agree(c, root, files, tree) && IsDirectory(tree, p) && n != "" && !part.Itself?
    requires PlaceOf(c, tree[p], n) + [MetadataName(part)] in files
    ensures p + [n] in tree && HasPart(tree[p + [n]], part)
  {
    var enc := c.enc(n, tree[p].kind.id);
    var x := ShortenEncName(c, enc).0;
    assert x == Leaf(c, Directory(""), enc);
    var u := MetadataOnDisk(c, root, files, tree, p, x, part);
    EntryFacts(c, root, tree, u);
    LeavesDiffer(c, tree[u].kind, tree[u].enc, Directory(""), enc);
    EncodingsDiffer(c, Base(u), n, tree[p].kind.id);
  }

  /** An entry with metadata is in the place of its name. */
  lemma PlaceIsSlot(c: Codec, root: Path, tree: Tree, p: VPath, n: string)
    requires Lawful(c) && TreeOk(c, root, tree) && p + [n] in tree
    ensures IsDirectory(tree, p) && n != ""
    ensures var e := tree[p + [n]];
            && e.enc == c.enc(n, tree[p].kind.id)
            && (IsLong(e.enc) || e.kind.Directory? ==> e.slot == PlaceOf(c, tree[p], n))
            && (!IsLong(e.enc) && e.kind.Regular? ==> e.slot == ContentPath(c, tree[p].slot, e.enc))
            && (IsLong(e.enc) ==> e.slot + [CONTENTS_FILE] == ContentPath(c, tree[p].slot, e.enc))
  {
    EntryFacts(c, root, tree, p + [n]);
    assert Parent(p + [n]) == p;
  }

  /** Reading the id file in the place of a name tells whether the name is a directory, long or not. */
  lemma ProbeFindsDirectory(c: Codec, root: Path, files: Files, tree: Tree, p: VPath, n: string)
    requires Agree(c, root, files, tree) && IsDirectory(tree, p) && n != ""
    ensures var place := PlaceOf(c, tree[p], n);
            && (place + [DIR_ID_FILE] in files <==> IsDirectory(tree, p + [n]))
            && (IsDirectory(tree, p + [n]) ==>
                  tree[p + [n]].slot == place && files[place + [DIR_ID_FILE]] == File(tree[p + [n]].kind.id))
  {
    if IsDirectory(tree, p + [n]) {
      PlaceIsSlot(c, root, tree, p, n);
      assert PartPath(tree[p + [n]], IdFile) in files;
    }
    if PlaceOf(c, tree[p], n) + [DIR_ID_FILE] in files {
      MetadataOfName(c, root, files, tree, p, n, IdFile);
    }
  }

  // ---- Adding and replacing entries ----

  function PartMap(e: Entry, part: Part): Files {
    if HasPart(e, part) then map[PartPath(e, part) := PartNode(e, part)] else map[]
  }

  /** Every part of an entry, as written to disk. */
  function Written(e: Entry): Files {
    PartMap(e, Itself) + PartMap(e, IdFile) + PartMap(e, NameFile) + PartMap(e, Contents)
  }

  lemma WrittenIsParts(e: Entry)
    ensures forall part :: HasPart(e, part) ==>
              PartPath(e, part) in Written(e) && Written(e)[PartPath(e, part)] == PartNode(e, part)
    ensures forall path :: path in Written(e) ==> exists part :: HasPart(e, part) && path == PartPath(e, part)
  {
    PartsOfOneEntry(e.slot, DIR_ID_FILE, SHORT_NAME_FILE);
    PartsOfOneEntry(e.slot, DIR_ID_FILE, CONTENTS_FILE);
    PartsOfOneEntry(e.slot, SHORT_NAME_FILE, CONTENTS_FILE);
  }

  lemma PartsOfOneEntry(slot: Path, x: string, y: string)
    requires x != y
    ensures slot + [x] != slot + [y] && slot != slot + [x] && slot != slot + [y]
  {
    assert (slot + [x])[|slot|] == x && (slot + [y])[|slot|] == y;
    assert |slot + [x]| == |slot + [y]| == |slot| + 1;
  }

  /** The new entry is linked, and takes the place of none or of one whose parts it also has. */
  ghost predicate Fits(c: Codec, tree: Tree, v: VPath, e: Entry) {
    && v != [] && Linked(c, tree[v := e], v)
    && (v in tree ==> tree[v].slot == e.slot && !tree[v].kind.Directory?
                      && forall part :: HasPart(tree[v], part) ==> HasPart(e, part))
  }

  lemma TreeGrows(c: Codec, root: Path, tree: Tree, v: VPath, e: Entry)
    requires TreeOk(c, root, tree) && Fits(c, tree, v, e)
    ensures TreeOk(c, root, tree[v := e])
  {
    var tree' := tree[v := e];
    forall u | u in tree' && u != [] ensures Linked(c, tree', u) {
      if u != v {
        assert Linked(c, tree, u);
      }
    }
  }

  /** Writing the parts of an entry that fits puts the entry into the tree and touches no other. */
  lemma AgreeGrows(c: Codec, root: Path, files: Files, tree: Tree, v: VPath, e: Entry)
    requires Agree(c, root, files, tree) && Fits(c, tree, v, e)
    ensures Agree(c, root, files + Written(e), tree[v := e])
  {
    var tree', files' := tree[v := e], files + Written(e);
    TreeGrows(c, root, tree, v, e);
    WrittenIsParts(e);
    forall u, part | u in tree' && HasPart(tree'[u], part)
      ensures PartPath(tree'[u], part) in files' && files'[PartPath(tree'[u], part)] == PartNode(tree'[u], part)
    {
      if u != v {
        forall part' | HasPart(e, part') ensures PartPath(e, part') != PartPath(tree'[u], part) {
          if PartPath(e, part') == PartPath(tree'[u], part) {
            PartsDiffer(c, root, tree', u, part, v, part');
          }
        }
      }
    }
    forall path | path in files' ensures exists u, part :: IsPartOf(path, tree', u, part) {
      if path in Written(e) {
        var part :| HasPart(e, part) && path == PartPath(e, part);
        assert IsPartOf(path, tree', v, part);
      } else {
        var u, part :| IsPartOf(path, tree, u, part);
        assert u == v ==> HasPart(e, part) && PartPath(e, part) == path;
        assert IsPartOf(path, tree', u, part);
      }
    }
  }

  // ---- The plain tree ----

  datatype PlainNode = PlainDir | PlainFile(data: string)
  type PlainTree = map<VPath, PlainNode>

  function Plain(tree: Tree): (t: PlainTree) {
    map v | v in tree && !tree[v].kind.Reserved? ::
      if tree[v].kind.Directory? then PlainDir else PlainFile(tree[v].kind.data)
  }

  predicate IsPlainDir(t: PlainTree, v: VPath) {
    v in t && t[v].PlainDir?
  }

  lemma {:induction false} AncestorsAreDirectories(c: Codec, root: Path, tree: Tree, v: VPath, i: nat)
    requires TreeOk(c, root, tree) && v in tree && i <= |v|
    ensures v[..i] in tree && (i < |v| ==> IsDirectory(tree, v[..i]))
    decreases |v|
  {
    if i < |v| {
      assert Linked(c, tree, v);
      AncestorsAreDirectories(c, root, tree, Parent(v), i);
      assert Parent(v)[..i] == v[..i];
      assert i == |v| - 1 ==> v[..i] == Parent(v);
    } else {
      assert v[..i] == v;
    }
  }

  /** A directory has one entry for each name on disk. */
  lemma NameOfLeaf(c: Codec, root: Path, tree: Tree, p: VPath, m: string, n: string)
    requires Lawful(c) && TreeOk(c, root, tree) && p + [m] in tree && p + [n] in tree
    requires var e, f := tree[p + [m]], tree[p + [n]]; Leaf(c, e.kind, e.enc) == Leaf(c, f.kind, f.enc)
    ensures m == n
  {
    EntryFacts(c, root, tree, p + [m]);
    EntryFacts(c, root, tree, p + [n]);
    assert Parent(p + [m]) == p && Parent(p + [n]) == p;
    LeavesDiffer(c, tree[p + [m]].kind, tree[p + [m]].enc, tree[p + [n]].kind, tree[p + [n]].enc);
    EncodingsDiffer(c, m, n, tree[p].kind.id);
  }
}
