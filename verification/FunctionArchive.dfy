/**
 * Reading an uploaded function archive: which enclosing directory is stripped,
 * and what the extraction then leaves in the staging directory.
 */
module FunctionArchive {

  type Bytes = seq<bv8>

  /** An archive entry after path cleaning; unsafe names and special files are only recognised. */
  datatype Item = Item(safe: bool, clean: string, directory: bool, declared: nat, data: Bytes)

  const MAX_ARCHIVE_BYTES := 20 * 1024 * 1024
  const MAX_EXTRACTED_BYTES := 100 * 1024 * 1024
  const MAX_FILES := 500
  const MAX_FILE_BYTES := 20 * 1024 * 1024

  const INDEX := "index.ts"
  const SLASH := "/"

  predicate HasPrefix(s: string, p: string) {
    p <= s
  }

  predicate HasSuffix(s: string, t: string) {
    |t| <= |s| && s[|s| - |t|..] == t
  }

  /** The part after the last slash. */
  function Base(s: string): string {
    if s == "" || s[|s| - 1] == '/' then "" else Base(s[..|s| - 1]) + [s[|s| - 1]]
  }

  /** A directory prefix without its closing slash. */
  function Root(prefix: string): string {
    if HasSuffix(prefix, SLASH) then prefix[..|prefix| - 1] else prefix
  }

  predicate Metadata(clean: string) {
    || clean == "__MACOSX" || HasPrefix(clean, "__MACOSX/")
    || Base(clean) == ".DS_Store" || HasPrefix(Base(clean), "._")
  }

  /** The base is the last path component. */
  lemma {:induction false} BaseIsLastComponent(s: string)
    ensures |Base(s)| <= |s|
    ensures forall i | |s| - |Base(s)| <= i < |s| :: Base(s)[i - (|s| - |Base(s)|)] == s[i] != '/'
    ensures |Base(s)| < |s| ==> s[|s| - |Base(s)| - 1] == '/'
  {
    if s != "" && s[|s| - 1] != '/' {
      var init := s[..|s| - 1];
      BaseIsLastComponent(init);
      assert forall i | 0 <= i < |init| :: init[i] == s[i];
    }
  }

  /** The last component of a path: its longest ending without a slash. */
  ghost predicate LastComponent(s: string, last: string) {
    && |last| <= |s| && (|last| < |s| ==> s[|s| - |last| - 1] == '/')
    && forall i | |s| - |last| <= i < |s| :: last[i - (|s| - |last|)] == s[i] != '/'
  }

  lemma LastComponentIff(s: string, last: string)
    ensures LastComponent(s, last) <==> last == Base(s)
  {
    BaseIsLastComponent(s);
    hide Base;
    var base := Base(s);
    if LastComponent(s, last) {
      assert |last| == |base|;
      assert forall i | 0 <= i < |base| :: last[i] == s[|s| - |base| + i] == base[i];
    }
  }

  /** What macOS adds to an archive: its own directory, and files named .DS_Store or ._something anywhere. */
  lemma MetadataIff(clean: string)
    ensures Metadata(clean) <==>
      || clean == "__MACOSX" || "__MACOSX/" <= clean
      || (exists last :: LastComponent(clean, last) && (last == ".DS_Store" || "._" <= last))
  {
    hide Base, LastComponent;
    LastComponentIff(clean, Base(clean));
    forall last | LastComponent(clean, last) ensures last == Base(clean) {
      LastComponentIff(clean, last);
    }
  }

  /** An entry that layout selection looks at. */
  predicate Counts(item: Item) {
    item.safe && !Metadata(item.clean)
  }

  // ---------------------------------------------------------------------------------------------
  // Layouts
  // ---------------------------------------------------------------------------------------------

  /** A prefix that may be stripped for a function: none, or a directory with the function's name. */
  predicate Layout(prefix: string, name: string) {
    prefix == "" || (HasSuffix(prefix, SLASH) && Base(Root(prefix)) == name)
  }

  /** A directory entry on the way down to the prefix. */
  predicate Ancestor(item: Item, prefix: string) {
    item.directory && (item.clean == Root(prefix) || HasPrefix(Root(prefix), item.clean + SLASH))
  }

  predicate Inside(item: Item, prefix: string) {
    HasPrefix(item.clean, prefix) && (item.clean == prefix ==> item.directory)
  }

  predicate IsIndex(item: Item, prefix: string) {
    Counts(item) && !item.directory && item.clean == prefix + INDEX
  }

  /** A layout covers an archive: an index file directly under it, and nothing outside it. */
  predicate Covers(files: seq<Item>, prefix: string) {
    && (exists i :: 0 <= i < |files| && IsIndex(files[i], prefix))
    && (prefix != "" ==> forall i | 0 <= i < |files| && Counts(files[i]) :: Inside(files[i], prefix) || Ancestor(files[i], prefix))
  }

  /**
   * A directory covers an archive exactly when its index file is there and
   * every other entry that counts is under it, or is a directory on the way
   * down to it.
   */
  lemma CoversIff(files: seq<Item>, root: string)
    ensures Covers(files, root + "/") <==>
      && (exists i :: 0 <= i < |files| && Counts(files[i]) && !files[i].directory && files[i].clean == root + "/index.ts")
      && (forall i | 0 <= i < |files| && Counts(files[i]) ::
            || (root + "/" <= files[i].clean && (files[i].directory || |files[i].clean| > |root| + 1))
            || (files[i].directory && (files[i].clean == root || files[i].clean + "/" <= root)))
  {
    hide Counts;
    assert Root(root + "/") == root;
    assert root + "/" + INDEX == root + "/index.ts";
    assert forall s: string | root + "/" <= s :: s == root + "/" <==> |s| == |root| + 1;
  }

  function Usual(name: string): seq<string> {
    ["", name + SLASH, "supabase/functions/" + name + SLASH]
  }

  /** The wrapper directory an index file suggests. */
  predicate Suggests(item: Item, name: string) {
    && Counts(item) && !item.directory && HasSuffix(item.clean, SLASH + INDEX)
    && Base(Root(item.clean[..|item.clean| - |INDEX|])) == name
  }

  function Candidates(files: seq<Item>, name: string): seq<string> {
    if files == [] then Usual(name)
    else
      var known, item := Candidates(files[..|files| - 1], name), files[|files| - 1];
      if Suggests(item, name) && item.clean[..|item.clean| - |INDEX|] !in known
      then known + [item.clean[..|item.clean| - |INDEX|]] else known
  }

  /** A function name has no slash, so it is its own base. */
  lemma {:induction false} NameIsBase(front: string, name: string)
    requires '/' !in name
    ensures Base(front + name) == Base(front) + name
  {
    if name != "" {
      var init := name[..|name| - 1];
      NameIsBase(front, init);
      assert (front + name)[..|front + name| - 1] == front + init;
      assert name == init + [name[|name| - 1]];
      assert name[|name| - 1] in name;
    } else {
      assert front + name == front;
    }
  }

  lemma UsualAreLayouts(name: string)
    requires '/' !in name
    ensures forall c | c in Usual(name) :: Layout(c, name)
  {
    var wrapped := "supabase/functions/";
    NameIsBase("", name);
    NameIsBase(wrapped, name);
    assert "" + name == name;
    assert wrapped[|wrapped| - 1] == '/';
    assert Base(wrapped) == "";
    assert "" + name == name;
    assert Root(name + SLASH) == name;
    assert Root(wrapped + name + SLASH) == wrapped + name;
  }

  lemma {:induction false} CandidatesAreLayouts(files: seq<Item>, name: string)
    requires '/' !in name
    ensures forall c | c in Candidates(files, name) :: Layout(c, name)
  {
    if files == [] {
      UsualAreLayouts(name);
    } else {
      CandidatesAreLayouts(files[..|files| - 1], name);
      var item := files[|files| - 1];
      if Suggests(item, name) {
        SuggestionEndsInSlash(item, name);
      }
    }
  }

  lemma SuggestionEndsInSlash(item: Item, name: string)
    requires Suggests(item, name)
    ensures HasSuffix(item.clean[..|item.clean| - |INDEX|], SLASH)
  {
  }

  lemma {:induction false} CandidatesGrow(files: seq<Item>, name: string, k: nat)
    requires k <= |files|
    ensures Candidates(files[..k], name) <= Candidates(files, name)
  {
    if k == |files| {
      assert files[..k] == files;
    } else {
      assert files[..|files| - 1][..k] == files[..k];
      CandidatesGrow(files[..|files| - 1], name, k);
    }
  }

  lemma IndexSuggestsPrefix(item: Item, name: string, prefix: string)
    requires Layout(prefix, name) && prefix != "" && IsIndex(item, prefix)
    ensures Suggests(item, name) && item.clean[..|item.clean| - |INDEX|] == prefix
  {
  }

  /** No covering layout is overlooked: its own index file suggests it. */
  lemma CoveringLayoutIsCandidate(files: seq<Item>, name: string, prefix: string)
    requires Layout(prefix, name) && Covers(files, prefix)
    ensures prefix in Candidates(files, name)
  {
    hide Suggests, HasSuffix, Counts, Base;
    if prefix == "" {
      CandidatesGrow(files, name, 0);
      assert Candidates(files[..0], name)[0] == "";
    } else {
      var i :| 0 <= i < |files| && IsIndex(files[i], prefix);
      IndexSuggestsPrefix(files[i], name, prefix);
      assert files[..i + 1][..i] == files[..i];
      assert prefix in Candidates(files[..i + 1], name);
      CandidatesGrow(files, name, i + 1);
    }
  }

  /** The layouts to try: the usual ones, then the wrappers that index files suggest. */
  method CollectCandidates(files: seq<Item>, name: string) returns (candidates: seq<string>)
    ensures candidates == Candidates(files, name)
  {
    hide Counts, Base, Root, Usual;
    candidates := Usual(name);
    var known := set c | c in candidates;
    for k := 0 to |files|
      invariant candidates == Candidates(files[..k], name)
      invariant known == set c | c in candidates
    {
      assert files[..k + 1][..k] == files[..k];
      if Suggests(files[k], name) {
        var prefix := files[k].clean[..|files[k].clean| - |INDEX|];
        if prefix !in known {
          known := known + {prefix};
          candidates := candidates + [prefix];
        }
      }
    }
    assert files[..|files|] == files;
  }

  /** One candidate against every entry. */
  method CheckLayout(files: seq<Item>, prefix: string) returns (covers: bool)
    ensures covers == Covers(files, prefix)
  {
    var hasIndex, valid, k := false, true, 0;
    var root := Root(prefix);
    while k < |files| && valid
      invariant 0 <= k <= |files|
      invariant hasIndex ==> exists i :: 0 <= i < |files| && IsIndex(files[i], prefix)
      invariant valid && !hasIndex ==> forall i | 0 <= i < k :: !IsIndex(files[i], prefix)
      invariant valid && prefix != "" ==> forall i | 0 <= i < k && Counts(files[i]) :: Inside(files[i], prefix) || Ancestor(files[i], prefix)
      invariant !valid ==> prefix != "" && exists i :: 0 <= i < |files| && Counts(files[i]) && !Inside(files[i], prefix) && !Ancestor(files[i], prefix)
      decreases |files| - k, valid
    {
      var item := files[k];
      if Counts(item) {
        if prefix == "" {
          hasIndex := hasIndex || (!item.directory && item.clean == INDEX);
        } else if HasPrefix(item.clean, prefix) {
          var relative := item.clean[|prefix|..];
          assert item.clean == prefix + relative;
          if relative == "" {
            if !item.directory {
              valid := false;
            }
          } else if !item.directory && relative == INDEX {
            hasIndex := true;
          }
        } else if !(item.directory && item.clean == root) && !(item.directory && root != "" && HasPrefix(root, item.clean + SLASH)) {
          valid := false;
        }
      }
      k := k + 1;
    }
    covers := valid && hasIndex;
  }

  lemma NoCandidateCovers(files: seq<Item>, name: string)
    requires forall c | c in Candidates(files, name) :: !Covers(files, c)
    ensures !Covered(files, name)
  {
    hide Covers, Layout, Candidates;
    if p: string :| Layout(p, name) && Covers(files, p) {
      CoveringLayoutIsCandidate(files, name, p);
    }
  }

  /** functionArchivePrefix: the first candidate that covers the archive, or no prefix. */
  method SelectPrefix(files: seq<Item>, name: string) returns (prefix: string)
    requires '/' !in name
    ensures Layout(prefix, name)
    ensures Covers(files, prefix) <==> Covered(files, name)
    ensures !Covered(files, name) ==> prefix == ""
  {
    hide Covers, Candidates, HasSuffix, Base, Root;
    var candidates := CollectCandidates(files, name);
    CandidatesAreLayouts(files, name);
    for k := 0 to |candidates|
      invariant forall i | 0 <= i < k :: !Covers(files, candidates[i])
    {
      var covers := CheckLayout(files, candidates[k]);
      if covers {
        assert candidates[k] in candidates;
        return candidates[k];
      }
    }
    NoCandidateCovers(files, name);
    prefix := "";
  }

  /** Some layout covers the archive. */
  ghost predicate Covered(files: seq<Item>, name: string) {
    exists p: string :: Layout(p, name) && Covers(files, p)
  }

  // ---------------------------------------------------------------------------------------------
  // Extraction
  // ---------------------------------------------------------------------------------------------

  datatype Failure =
    | InvalidName | ArchiveTooLarge | TooManyFiles | UnsafePath | BadEnclosure
    | DuplicatePath | FileTooLarge | ExtractedTooLarge | MissingIndex | Filesystem

  datatype Stage = Staged(tree: map<string, Bytes>) | Failed(reason: Failure)

  /** An entry whose bytes are extracted. */
  predicate IsFile(item: Item) {
    Counts(item) && !item.directory
  }

  /** Where an entry goes once the prefix is stripped. */
  function Stripped(clean: string, prefix: string): string {
    if HasPrefix(clean, prefix) then clean[|prefix|..] else clean
  }

  /** Every file under its stripped path. */
  function TreeOf(files: seq<Item>, prefix: string): map<string, Bytes> {
    if files == [] then map[]
    else
      var tree, item := TreeOf(files[..|files| - 1], prefix), files[|files| - 1];
      if IsFile(item) then tree[Stripped(item.clean, prefix) := item.data] else tree
  }

  function Total(files: seq<Item>): nat {
    if files == [] then 0
    else Total(files[..|files| - 1]) + if IsFile(files[|files| - 1]) then |files[|files| - 1].data| else 0
  }

  ghost predicate AllSafe(files: seq<Item>) {
    forall i | 0 <= i < |files| :: files[i].safe
  }

  ghost predicate NoDuplicates(files: seq<Item>) {
    forall i, j | 0 <= i < j < |files| && IsFile(files[i]) && IsFile(files[j]) :: files[i].clean != files[j].clean
  }

  ghost predicate FilesInLimit(files: seq<Item>) {
    forall i | 0 <= i < |files| && IsFile(files[i]) :: files[i].declared <= MAX_FILE_BYTES && |files[i].data| <= MAX_FILE_BYTES
  }

  /** An archive the extraction has no quarrel with, entry by entry. */
  ghost predicate Acceptable(files: seq<Item>) {
    AllSafe(files) && NoDuplicates(files) && FilesInLimit(files) && Total(files) <= MAX_EXTRACTED_BYTES
  }

  lemma {:induction false} TotalGrows(files: seq<Item>, k: nat)
    requires k <= |files|
    ensures Total(files[..k]) <= Total(files)
  {
    if k == |files| {
      assert files[..k] == files;
    } else {
      assert files[..|files| - 1][..k] == files[..k];
      TotalGrows(files[..|files| - 1], k);
    }
  }

  ghost predicate StagedAt(files: seq<Item>, prefix: string, path: string) {
    exists i :: 0 <= i < |files| && IsFile(files[i]) && Stripped(files[i].clean, prefix) == path
  }

  /** The staged paths are the stripped paths of the files. */
  lemma {:induction false} TreePaths(files: seq<Item>, prefix: string, path: string)
    ensures path in TreeOf(files, prefix) <==> StagedAt(files, prefix, path)
  {
    if files != [] {
      hide Stripped, Counts;
      var front := files[..|files| - 1];
      TreePaths(front, prefix, path);
      if StagedAt(front, prefix, path) {
        var i :| 0 <= i < |front| && IsFile(front[i]) && Stripped(front[i].clean, prefix) == path;
        assert files[i] == front[i];
      }
      if StagedAt(files, prefix, path) {
        var i :| 0 <= i < |files| && IsFile(files[i]) && Stripped(files[i].clean, prefix) == path;
        assert i < |front| ==> front[i] == files[i];
      }
    }
  }

  /** Under a chosen prefix every file lies inside it. */
  lemma ChosenPrefixHolds(files: seq<Item>, name: string, prefix: string, k: nat)
    requires '/' !in name && Layout(prefix, name) && prefix != "" && Covers(files, prefix)
    requires k < |files| && Counts(files[k]) && !Ancestor(files[k], prefix)
    ensures HasPrefix(files[k].clean, prefix) && files[k].clean != name
    ensures files[k].clean == prefix ==> files[k].directory
  {
    assert prefix[|prefix| - 1] == '/';
    assert files[k].clean[|prefix| - 1] == '/';
  }

  datatype Placement = Ignored | Misplaced | Folder | FileAt(path: string)

  /** Where the extraction puts one entry that is not metadata. */
  function Place(item: Item, name: string, prefix: string): Placement {
    if prefix == "" then
      if item.directory then Folder else FileAt(item.clean)
    else if item.directory && (item.clean == Root(prefix) || HasPrefix(Root(prefix), item.clean + SLASH)) then Ignored
    else if item.clean == name then
      if item.directory then Ignored else Misplaced
    else if !HasPrefix(item.clean, prefix) then Misplaced
    else if item.clean == prefix then
      if item.directory then Ignored else Misplaced
    else if item.directory then Folder
    else FileAt(item.clean[|prefix|..])
  }

  /** Selection and extraction agree: nothing is misplaced, and exactly the files are written. */
  lemma PlacementAgrees(files: seq<Item>, name: string, prefix: string, k: nat)
    requires '/' !in name && Layout(prefix, name) && (prefix != "" ==> Covers(files, prefix))
    requires k < |files| && Counts(files[k])
    ensures Place(files[k], name, prefix) ==
      if IsFile(files[k]) then FileAt(Stripped(files[k].clean, prefix))
      else if Place(files[k], name, prefix) == Folder then Folder else Ignored
    ensures IsFile(files[k]) ==> files[k].clean == prefix + Stripped(files[k].clean, prefix)
    // Directories strictly inside are made, those on the way down are not.
    ensures Place(files[k], name, prefix) == Folder <==>
      files[k].directory && (prefix == "" || (HasPrefix(files[k].clean, prefix) && files[k].clean != prefix))
  {
    if prefix != "" && !Ancestor(files[k], prefix) {
      ChosenPrefixHolds(files, name, prefix, k);
    }
  }

  /** A staged index file means that the prefix covers the archive, and the other way round. */
  lemma IndexMeansCovered(files: seq<Item>, name: string, prefix: string)
    requires '/' !in name && Layout(prefix, name) && (prefix != "" ==> Covers(files, prefix))
    ensures INDEX in TreeOf(files, prefix) <==> Covers(files, prefix)
  {
  }

  ghost predicate Repeats(files: seq<Item>, item: Item) {
    exists i :: 0 <= i < |files| && IsFile(files[i]) && files[i].clean == item.clean
  }

  /** A stripped path is taken exactly when the same file came before. */
  lemma TakenMeansRepeated(files: seq<Item>, name: string, prefix: string, k: nat)
    requires '/' !in name && Layout(prefix, name) && (prefix != "" ==> Covers(files, prefix))
    requires k < |files| && IsFile(files[k])
    ensures Stripped(files[k].clean, prefix) in TreeOf(files[..k], prefix) <==> Repeats(files[..k], files[k])
  {
    var path := Stripped(files[k].clean, prefix);
    TreePaths(files[..k], prefix, path);
    PlacementAgrees(files, name, prefix, k);
    if i :| 0 <= i < k && IsFile(files[..k][i]) && Stripped(files[..k][i].clean, prefix) == path {
      PlacementAgrees(files, name, prefix, i);
      assert files[..k][i].clean == files[k].clean;
    }
  }

  /** An acceptable archive is acceptable up to every entry. */
  lemma AcceptablePrefix(files: seq<Item>, k: nat)
    requires k <= |files| && Acceptable(files)
    ensures Acceptable(files[..k])
  {
    TotalGrows(files, k);
  }

  /** An entry that is no file changes nothing. */
  lemma SkipEntry(files: seq<Item>, prefix: string, k: nat)
    requires k < |files| && files[k].safe && !IsFile(files[k]) && Acceptable(files[..k])
    ensures Acceptable(files[..k + 1])
    ensures TreeOf(files[..k + 1], prefix) == TreeOf(files[..k], prefix) && Total(files[..k + 1]) == Total(files[..k])
  {
    assert files[..k + 1][..k] == files[..k];
    assert files[..k + 1][k] == files[k];
    hide Metadata;
  }

  /** A file is added under its stripped path. */
  lemma AddFile(files: seq<Item>, prefix: string, k: nat)
    requires k < |files| && IsFile(files[k]) && Acceptable(files[..k])
    ensures TreeOf(files[..k + 1], prefix) == TreeOf(files[..k], prefix)[Stripped(files[k].clean, prefix) := files[k].data]
    ensures Total(files[..k + 1]) == Total(files[..k]) + |files[k].data|
    ensures Acceptable(files[..k + 1]) <==>
      && !Repeats(files[..k], files[k])
      && files[k].declared <= MAX_FILE_BYTES && |files[k].data| <= MAX_FILE_BYTES
      && Total(files[..k + 1]) <= MAX_EXTRACTED_BYTES
  {
    hide Metadata;
    var front, more := files[..k], files[..k + 1];
    assert more[..k] == front && more[k] == files[k];
    if Repeats(front, files[k]) {
      var i :| 0 <= i < |front| && IsFile(front[i]) && front[i].clean == files[k].clean;
      assert more[i].clean == more[k].clean;
    } else {
      assert NoDuplicates(more) by {
        forall i, j | 0 <= i < j < |more| && IsFile(more[i]) && IsFile(more[j]) ensures more[i].clean != more[j].clean {
          assert more[i] == front[i];
          assert j < k ==> more[j] == front[j];
        }
      }
    }
  }

  lemma UnsafeEntry(files: seq<Item>, k: nat)
    requires k < |files| && !files[k].safe
    ensures !Acceptable(files)
  {
  }

  /** The tree holds exactly the files of the archive, each under what follows the prefix. */
  ghost predicate Unpacked(tree: map<string, Bytes>, files: seq<Item>, prefix: string) {
    && (forall i | 0 <= i < |files| && files[i].safe && !files[i].directory && !Metadata(files[i].clean) ::
          prefix <= files[i].clean && files[i].clean[|prefix|..] in tree && tree[files[i].clean[|prefix|..]] == files[i].data)
    && (forall path | path in tree :: exists i :: 0 <= i < |files| && IsFile(files[i]) && files[i].clean == prefix + path)
  }

  lemma {:induction false} TreeIsUnpacked(files: seq<Item>, prefix: string)
    requires NoDuplicates(files) && forall i | 0 <= i < |files| && IsFile(files[i]) :: prefix <= files[i].clean
    ensures Unpacked(TreeOf(files, prefix), files, prefix)
  {
    if files != [] {
      hide Metadata, Unpacked, Stripped;
      var front := files[..|files| - 1];
      assert forall i | 0 <= i < |front| :: front[i] == files[i];
      TreeIsUnpacked(front, prefix);
      if IsFile(files[|files| - 1]) {
        FileIsUnpacked(TreeOf(front, prefix), files, prefix);
      } else {
        RestIsUnpacked(TreeOf(front, prefix), files, prefix);
      }
    } else {
      assert Unpacked(map[], [], prefix);
    }
  }

  lemma RestIsUnpacked(tree: map<string, Bytes>, files: seq<Item>, prefix: string)
    requires files != [] && !IsFile(files[|files| - 1]) && Unpacked(tree, files[..|files| - 1], prefix)
    ensures Unpacked(tree, files, prefix)
  {
    hide Metadata;
    var front := files[..|files| - 1];
    assert forall i | 0 <= i < |front| :: front[i] == files[i];
    forall path | path in tree ensures exists i :: 0 <= i < |files| && IsFile(files[i]) && files[i].clean == prefix + path {
      var i :| 0 <= i < |front| && IsFile(front[i]) && front[i].clean == prefix + path;
      assert files[i] == front[i];
    }
  }

  lemma FileIsUnpacked(tree: map<string, Bytes>, files: seq<Item>, prefix: string)
    requires files != [] && IsFile(files[|files| - 1]) && prefix <= files[|files| - 1].clean
    requires NoDuplicates(files) && Unpacked(tree, files[..|files| - 1], prefix)
    ensures Unpacked(tree[Stripped(files[|files| - 1].clean, prefix) := files[|files| - 1].data], files, prefix)
  {
    hide Metadata;
    var n := |files| - 1;
    var front, last := files[..n], files[n];
    var path := last.clean[|prefix|..];
    assert last.clean == prefix + path;
    assert forall i | 0 <= i < n :: front[i] == files[i];
    var more := tree[path := last.data];
    forall i | 0 <= i < |files| && IsFile(files[i])
      ensures prefix <= files[i].clean && files[i].clean[|prefix|..] in more && more[files[i].clean[|prefix|..]] == files[i].data
    {
      if i < n {
        assert IsFile(front[i]) && files[i].clean != last.clean;
        assert files[i].clean == prefix + files[i].clean[|prefix|..];
      }
    }
    forall p | p in more ensures exists i :: 0 <= i < |files| && IsFile(files[i]) && files[i].clean == prefix + p {
      if p == path {
        assert files[n].clean == prefix + p;
      } else {
        var i :| 0 <= i < |front| && IsFile(front[i]) && front[i].clean == prefix + p;
        assert files[i] == front[i];
      }
    }
  }

  lemma CoveredFilesHavePrefix(files: seq<Item>, name: string, prefix: string)
    requires '/' !in name && Layout(prefix, name) && (prefix != "" ==> Covers(files, prefix))
    ensures forall i | 0 <= i < |files| && IsFile(files[i]) :: prefix <= files[i].clean
  {
    forall i | 0 <= i < |files| && IsFile(files[i]) ensures prefix <= files[i].clean {
      PlacementAgrees(files, name, prefix, i);
    }
  }

  /** The loop of StageFunctionRelease; `works` says that no file operation fails. */
  method Extract(files: seq<Item>, name: string, prefix: string, works: bool) returns (stage: Stage)
    requires '/' !in name && Layout(prefix, name) && (prefix != "" ==> Covers(files, prefix))
    ensures stage.Staged? ==>
      Acceptable(files) && Covers(files, prefix) && stage.tree == TreeOf(files, prefix) && Unpacked(stage.tree, files, prefix)
    ensures works ==> stage != Failed(Filesystem)
    ensures stage.Failed? ==> stage.reason in {UnsafePath, DuplicatePath, FileTooLarge, ExtractedTooLarge, MissingIndex, Filesystem}
    ensures stage == Failed(MissingIndex) ==> Acceptable(files) && !Covers(files, prefix)
    ensures stage.Failed? && stage.reason !in {MissingIndex, Filesystem} ==> !Acceptable(files)
  {
    hide Acceptable, Covers, Layout, TreeOf, Total, Metadata, Place, Stripped, Repeats;
    var extracted, hasIndex := 0, false;
    var tree: map<string, Bytes> := map[];
    EmptyArchive(prefix);
    assert files[..0] == [];
    for k := 0 to |files|
      invariant Acceptable(files[..k])
      invariant extracted == Total(files[..k])
      invariant tree == TreeOf(files[..k], prefix)
      invariant hasIndex <==> INDEX in tree
    {
      var item := files[k];
      if !item.safe {
        UnsafeEntry(files, k);
        return Failed(UnsafePath);
      }
      if Metadata(item.clean) {
        SkipEntry(files, prefix, k);
        continue;
      }
      PlacementAgrees(files, name, prefix, k);
      match Place(item, name, prefix)
      case Ignored =>
        SkipEntry(files, prefix, k);
      case Misplaced => return Failed(BadEnclosure);
      case Folder =>
        SkipEntry(files, prefix, k);
        var made: bool := *;
        if !made && !works {
          return Failed(Filesystem);
        }
      case FileAt(path) =>
        TakenMeansRepeated(files, name, prefix, k);
        AddFile(files, prefix, k);
        if Acceptable(files) {
          AcceptablePrefix(files, k + 1);
        }
        if path in tree {
          return Failed(DuplicatePath);
        }
        if item.declared > MAX_FILE_BYTES || |item.data| > MAX_FILE_BYTES {
          return Failed(FileTooLarge);
        }
        var written: bool := *;
        if !written && !works {
          return Failed(Filesystem);
        }
        hasIndex := hasIndex || path == INDEX;
        tree := tree[path := item.data];
        extracted := extracted + |item.data|;
        if extracted > MAX_EXTRACTED_BYTES {
          return Failed(ExtractedTooLarge);
        }
    }
    assert files[..|files|] == files;
    IndexMeansCovered(files, name, prefix);
    if !hasIndex {
      return Failed(MissingIndex);
    }
    var synced: bool := *;
    if !synced && !works {
      return Failed(Filesystem);
    }
    CoveredFilesHavePrefix(files, name, prefix);
    assert NoDuplicates(files) by { AcceptableParts(files); }
    TreeIsUnpacked(files, prefix);
    stage := Staged(tree);
  }

  lemma AcceptableParts(files: seq<Item>)
    requires Acceptable(files)
    ensures NoDuplicates(files)
  {
  }

  lemma EmptyArchive(prefix: string)
    ensures Acceptable([]) && TreeOf([], prefix) == map[] && Total([]) == 0
  {
  }

  /** ValidateFunctionName: lower-case letters, digits and inner hyphens, and not "main". */
  predicate ValidName(name: string) {
    && name != "main" && 1 <= |name| <= 63
    && (forall c | c in name :: 'a' <= c <= 'z' || '0' <= c <= '9' || c == '-')
    && name[0] != '-' && name[|name| - 1] != '-'
  }

  predicate NameChar(c: char) {
    'a' <= c <= 'z' || '0' <= c <= '9'
  }

  /** One letter or digit, or up to 63 characters between two of them. */
  lemma ValidNameIff(name: string)
    ensures ValidName(name) <==>
      && name != "main"
      && (|| (|name| == 1 && NameChar(name[0]))
          || (2 <= |name| <= 63 && NameChar(name[0]) && NameChar(name[|name| - 1])
              && forall i | 0 < i < |name| - 1 :: NameChar(name[i]) || name[i] == '-'))
  {
    if name != "" {
      assert name[0] in name && name[|name| - 1] in name;
    }
    assert forall i | 0 <= i < |name| :: name[i] in name;
  }

  /**
   * StageFunctionRelease: an archive of safe, unique, in-limit entries is
   * staged, or misses its index file, according to whether some layout covers
   * it; extraction never meets a misplaced entry.
   */
  method StageFunctionRelease(name: string, archiveBytes: nat, files: seq<Item>, works: bool) returns (stage: Stage)
    ensures stage != Failed(BadEnclosure) && (works ==> stage != Failed(Filesystem))
    ensures stage.Staged? ==> exists prefix: string ::
      Layout(prefix, name) && Covers(files, prefix) && stage.tree == TreeOf(files, prefix) && Unpacked(stage.tree, files, prefix)
    ensures stage == Failed(MissingIndex) ==> !Covered(files, name)
    ensures (ValidName(name) && archiveBytes <= MAX_ARCHIVE_BYTES && |files| <= MAX_FILES && Acceptable(files)
             && stage != Failed(Filesystem))
            ==> if Covered(files, name) then stage.Staged? else stage == Failed(MissingIndex)
    ensures stage.Staged? ==> ValidName(name) && |files| <= MAX_FILES && Acceptable(files)
  {
    if !ValidName(name) {
      return Failed(InvalidName);
    }
    if archiveBytes > MAX_ARCHIVE_BYTES {
      return Failed(ArchiveTooLarge);
    }
    if |files| > MAX_FILES {
      return Failed(TooManyFiles);
    }
    assert '/' !in name;
    var prefix := SelectPrefix(files, name);
    stage := Extract(files, name, prefix, works);
  }
}
