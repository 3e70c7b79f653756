/**
 * The train/validation splitter: it creates `data/validation/{cats,dogs}`,
 * lists the training images of each class, shuffles each list in place and
 * moves the first fifth of it into the validation directory of the class,
 * counting the moves that succeed and those that fail.
 */
module SplitData {
  import opened Wrappers
  import opened Names
  import opened FileSystemModel

  const TrainRoot: Path := "data/train"
  const ValidationRoot: Path := "data/validation"

  /** The extensions the splitter counts as images, compared after lower-casing. */
  const TrainingExtensions: seq<string> := [".jpg", ".jpeg", ".png"]

  /** The three directories `criar_pastas_validacao` creates, in its order. */
  const ValidationFolders: seq<Path> := ["data/validation", "data/validation/cats", "data/validation/dogs"]

  datatype Category = Cats | Dogs {
    function Label(): string
    {
      match this
      case Cats => "cats"
      case Dogs => "dogs"
    }
  }

  /** `f'{DIR_TREINO}/{categoria}'` */
  function TrainDir(c: Category): (p: Path)
    ensures p == if c == Cats then "data/train/cats" else "data/train/dogs"
  {
    TrainRoot + "/" + c.Label()
  }

  /** `f'{DIR_VALIDACAO}/{categoria}'` */
  function ValidationDir(c: Category): (p: Path)
    ensures p == if c == Cats then "data/validation/cats" else "data/validation/dogs"
  {
    ValidationRoot + "/" + c.Label()
  }

  /** The four class directories are pairwise different, and the validation ones are among the created folders. */
  lemma PathFacts()
    ensures TrainDir(Cats) == "data/train/cats" && TrainDir(Dogs) == "data/train/dogs"
    ensures ValidationDir(Cats) == ValidationFolders[1] && ValidationDir(Dogs) == ValidationFolders[2]
    ensures forall c, d :: TrainDir(c) != ValidationDir(d)
    ensures TrainDir(Cats) != TrainDir(Dogs) && ValidationDir(Cats) != ValidationDir(Dogs)
    ensures forall c :: TrainDir(c) !in ValidationFolders
  {
    assert TrainDir(Cats) == "data/train/cats";
    assert TrainDir(Dogs) == "data/train/dogs";
    assert ValidationDir(Cats) == "data/validation/cats";
    assert ValidationDir(Dogs) == "data/validation/dogs";
    forall c, d ensures TrainDir(c) != ValidationDir(d) {
      assert TrainDir(c)[5] == 't' && ValidationDir(d)[5] == 'v';
    }
    assert TrainDir(Cats)[11] != TrainDir(Dogs)[11];
    assert ValidationDir(Cats)[16] != ValidationDir(Dogs)[16];
  }

  /** The image names among `names`, by the splitter's extension rule. */
  function Images(names: set<Name>): (r: set<Name>)
    ensures r <= names
    ensures forall f :: f in r <==> f in names && HasExtension(f, TrainingExtensions)
  {
    WithExtension(names, TrainingExtensions)
  }

  /** The images in directory `p`, none when it is missing. */
  function ImagesAt(t: Tree, p: Path): set<Name>
  {
    if p in t then Images(t[p]) else {}
  }

  // ---------------------------------------------------------------------------
  // criar_pastas_validacao

  /** The tree after `os.makedirs(p, exist_ok=True)` for each `p` of `folders` in turn. */
  function WithFolders(t: Tree, folders: seq<Path>): (r: Tree)
    ensures r.Keys == t.Keys + set p | p in folders
    ensures forall q :: q in t ==> r[q] == t[q]
    ensures forall q :: q in r && q !in t ==> r[q] == {}
    decreases |folders|
  {
    if folders == [] then t
    else WithDir(WithFolders(t, folders[..|folders| - 1]), folders[|folders| - 1])
  }

  function WithValidationFolders(t: Tree): Tree
  {
    WithFolders(t, ValidationFolders)
  }

  /** Creating folders that all exist already changes nothing. */
  lemma CreateFoldersWhenPresent(t: Tree, folders: seq<Path>)
    requires forall p :: p in folders ==> p in t
    ensures WithFolders(t, folders) == t
  {
    var r := WithFolders(t, folders);
    assert r.Keys == t.Keys;
  }

  /** `criar_pastas_validacao` is idempotent. */
  lemma CreateValidationFoldersIdempotent(t: Tree)
    ensures WithValidationFolders(WithValidationFolders(t)) == WithValidationFolders(t)
  {
    CreateFoldersWhenPresent(WithValidationFolders(t), ValidationFolders);
  }

  /** Creating one more folder extends the folders created so far. */
  lemma WithFoldersStep(t: Tree, folders: seq<Path>, i: nat)
    requires i < |folders|
    ensures WithFolders(t, folders[..i + 1]) == WithDir(WithFolders(t, folders[..i]), folders[i])
  {
    assert folders[..i + 1][..i] == folders[..i];
  }

  /** `criar_pastas_validacao` */
  method CreateValidationFolders(fs: FileSystem)
    modifies fs
    ensures fs.tree == WithValidationFolders(old(fs.tree))
  {
    for i := 0 to |ValidationFolders|
      invariant fs.tree == WithFolders(old(fs.tree), ValidationFolders[..i])
    {
      WithFoldersStep(old(fs.tree), ValidationFolders, i);
      fs.MakeDirs(ValidationFolders[i]);
    }
    assert ValidationFolders[..|ValidationFolders|] == ValidationFolders;
  }

  // ---------------------------------------------------------------------------
  // contar_imagens

  /**
   * `contar_imagens`: the image listings of the two training directories, or
   * `None` (the source's `(None, None)`) when either of them is missing.
   */
  method CountImages(fs: FileSystem) returns (r: Option<(seq<Name>, seq<Name>)>)
    ensures r.None? <==> TrainDir(Cats) !in fs.tree || TrainDir(Dogs) !in fs.tree
    ensures r.Some? ==> IsListingOf(r.value.0, Images(fs.tree[TrainDir(Cats)]))
    ensures r.Some? ==> IsListingOf(r.value.1, Images(fs.tree[TrainDir(Dogs)]))
  {
    var cats := fs.ListDir(TrainDir(Cats));
    if cats.None? {
      return None;
    }
    var dogs := fs.ListDir(TrainDir(Dogs));
    if dogs.None? {
      return None;
    }
    KeptListing(cats.value, fs.tree[TrainDir(Cats)], TrainingExtensions);
    KeptListing(dogs.value, fs.tree[TrainDir(Dogs)], TrainingExtensions);
    return Some((KeepWithExtension(cats.value, TrainingExtensions), KeepWithExtension(dogs.value, TrainingExtensions)));
  }

  /** The length of the image list of the existing directory `p` (the recount at the end of `separar_dados`). */
  method ImageCountOf(fs: FileSystem, p: Path) returns (n: nat)
    requires p in fs.tree
    ensures n == |Images(fs.tree[p])|
  {
    var listing := fs.ListDir(p);
    KeptListing(listing.value, fs.tree[p], TrainingExtensions);
    return |KeepWithExtension(listing.value, TrainingExtensions)|;
  }

  // ---------------------------------------------------------------------------
  // How many, and which, files go to validation

  /**
   * `int(n * PORCENTAGEM_VALIDACAO)` with the fraction 0.2, in exact
   * arithmetic: the largest `k` with `5 * k <= n`.
   */
  function ValidationCount(n: nat): (k: nat)
    ensures k <= n
    ensures 5 * k <= n < 5 * k + 5
  {
    n / 5
  }

  /** The Python slice `s[:k]`, which stops at the end of `s`. */
  function Take(s: seq<Name>, k: nat): (r: seq<Name>)
    ensures |r| == if k <= |s| then k else |s|
    ensures r == s[..|r|]
  {
    if k <= |s| then s[..k] else s
  }

  /** The selection of `mover_para_validacao` always has exactly `ValidationCount` names. */
  lemma SelectionHasValidationCount(s: seq<Name>)
    ensures |Take(s, ValidationCount(|s|))| == ValidationCount(|s|)
  {
  }

  // ---------------------------------------------------------------------------
  // random.shuffle

  function Swap(s: seq<Name>, i: nat, j: nat): (r: seq<Name>)
    requires i < |s| && j < |s|
    ensures multiset(r) == multiset(s)
  {
    s[i := s[j]][j := s[i]]
  }

  /**
   * The first `i` positions still to be shuffled: CPython's `random.shuffle`
   * swaps position `i - 1` with a position drawn below `i`, for `i` from
   * `|s|` down to 2. `draw` stands for the random numbers.
   */
  function ShuffleSteps(s: seq<Name>, i: nat, draw: nat -> nat): (r: seq<Name>)
    requires i <= |s|
    ensures |r| == |s|
    decreases i
  {
    if i <= 1 then s
    else ShuffleSteps(Swap(s, i - 1, draw(i - 1) % i), i - 1, draw)
  }

  /** `random.shuffle` on the whole list: it only reorders, so the result is a permutation of its input. */
  function Shuffled(s: seq<Name>, draw: nat -> nat): (r: seq<Name>)
    ensures |r| == |s|
    ensures multiset(r) == multiset(s)
  {
    ShuffleStepsPermutes(s, |s|, draw);
    ShuffleSteps(s, |s|, draw)
  }

  /** Each run of swaps only reorders: the result is a permutation of its input. */
  lemma {:induction false} ShuffleStepsPermutes(s: seq<Name>, i: nat, draw: nat -> nat)
    requires i <= |s|
    ensures |ShuffleSteps(s, i, draw)| == |s|
    ensures multiset(ShuffleSteps(s, i, draw)) == multiset(s)
    decreases i
  {
    if i > 1 {
      var s' := Swap(s, i - 1, draw(i - 1) % i);
      ShuffleStepsPermutes(s', i - 1, draw);
    }
  }

  /** A swap keeps a list free of duplicates. */
  lemma SwapDistinct(s: seq<Name>, i: nat, j: nat)
    requires i < |s| && j < |s| && Distinct(s)
    ensures Distinct(Swap(s, i, j))
  {
    var r := Swap(s, i, j);
    assert forall k :: 0 <= k < |s| ==> r[k] == s[if k == i then j else if k == j then i else k];
  }

  /** Shuffling keeps a list free of duplicates. */
  lemma {:induction false} ShuffleStepsDistinct(s: seq<Name>, i: nat, draw: nat -> nat)
    requires i <= |s| && Distinct(s)
    ensures Distinct(ShuffleSteps(s, i, draw))
    decreases i
  {
    if i > 1 {
      SwapDistinct(s, i - 1, draw(i - 1) % i);
      ShuffleStepsDistinct(Swap(s, i - 1, draw(i - 1) % i), i - 1, draw);
    }
  }

  /** `random.shuffle(a)`, in place. */
  method Shuffle(a: array<Name>, draw: nat -> nat)
    modifies a
    ensures a[..] == Shuffled(old(a[..]), draw)
    ensures multiset(a[..]) == multiset(old(a[..]))
  {
    var i := a.Length;
    while i > 1
      invariant 0 <= i <= a.Length
      invariant ShuffleSteps(a[..], i, draw) == Shuffled(old(a[..]), draw)
      decreases i
    {
      var j := draw(i - 1) % i;
      a[i - 1], a[j] := a[j], a[i - 1];
      i := i - 1;
    }
  }

  // ---------------------------------------------------------------------------
  // mover_para_validacao

  /**
   * The names that moving `selection[0]`, `selection[1]`, ... in turn from
   * `src` to `dst` actually moves; `moveOk(k)` says whether the environment
   * lets the `k`-th move succeed.
   */
  function MovedNames(t: Tree, src: Path, dst: Path, selection: seq<Name>, moveOk: nat -> bool): (moved: set<Name>)
    ensures forall x :: x in moved ==> x in selection && src in t && dst in t && x in t[src]
    decreases |selection|
  {
    if selection == [] then {}
    else
      var k := |selection| - 1;
      var before := MovedNames(t, src, dst, selection[..k], moveOk);
      if moveOk(k) && src in t && dst in t && selection[k] in t[src] && selection[k] !in before
      then before + {selection[k]}
      else before
  }

  /** The tree after the names in `moved` have gone from `src` to `dst`. */
  function ApplyMoves(t: Tree, src: Path, dst: Path, moved: set<Name>): (r: Tree)
    requires src != dst
    ensures r.Keys == t.Keys
    ensures src in t && dst in t ==> r[src] == t[src] - moved && r[dst] == t[dst] + moved
    ensures forall p :: p in t && ((p != src && p != dst) || src !in t || dst !in t) ==> r[p] == t[p]
  {
    if src in t && dst in t then t[src := t[src] - moved][dst := t[dst] + moved] else t
  }

  lemma ApplyMovesStep(t: Tree, src: Path, dst: Path, moved: set<Name>, name: Name)
    requires src != dst && src in t && dst in t
    ensures MovedFile(ApplyMoves(t, src, dst, moved), src, dst, name) == ApplyMoves(t, src, dst, moved + {name})
  {
    var a := MovedFile(ApplyMoves(t, src, dst, moved), src, dst, name);
    var b := ApplyMoves(t, src, dst, moved + {name});
    assert a.Keys == b.Keys;
    forall p | p in a ensures a[p] == b[p] {
    }
  }

  /** One more name of the selection: it moves exactly when the move succeeds on the tree reached so far. */
  lemma MovedNamesStep(t: Tree, src: Path, dst: Path, selection: seq<Name>, i: nat, moveOk: nat -> bool)
    requires src != dst && i < |selection|
    ensures var before := MovedNames(t, src, dst, selection[..i], moveOk);
      && (MoveSucceeds(ApplyMoves(t, src, dst, before), src, dst, selection[i], moveOk(i)) ==> selection[i] !in before)
      && MovedNames(t, src, dst, selection[..i + 1], moveOk)
         == if MoveSucceeds(ApplyMoves(t, src, dst, before), src, dst, selection[i], moveOk(i))
            then before + {selection[i]} else before
  {
    assert selection[..i + 1][..i] == selection[..i];
  }

  /**
   * When the environment lets every move succeed, moving a duplicate-free
   * selection of files of `src` moves every one of them.
   */
  lemma {:induction false} AllMovesSucceed(t: Tree, src: Path, dst: Path, selection: seq<Name>, moveOk: nat -> bool)
    requires src in t && dst in t && Distinct(selection)
    requires forall i :: 0 <= i < |selection| ==> selection[i] in t[src]
    requires forall k :: moveOk(k)
    ensures MovedNames(t, src, dst, selection, moveOk) == set x | x in selection
    decreases |selection|
  {
    if selection != [] {
      var k := |selection| - 1;
      var init := selection[..k];
      assert Distinct(init);
      AllMovesSucceed(t, src, dst, init, moveOk);
      assert selection == init + [selection[k]];
      assert selection[k] !in init;
    }
  }

  /** The names moved depend on the tree only through the source directory's files and which directories exist. */
  lemma {:induction false} MovedNamesFrame(t: Tree, t': Tree, src: Path, dst: Path, selection: seq<Name>, moveOk: nat -> bool)
    requires (src in t <==> src in t') && (dst in t <==> dst in t')
    requires src in t ==> t[src] == t'[src]
    ensures MovedNames(t, src, dst, selection, moveOk) == MovedNames(t', src, dst, selection, moveOk)
    decreases |selection|
  {
    if selection != [] {
      MovedNamesFrame(t, t', src, dst, selection[..|selection| - 1], moveOk);
    }
  }

  lemma ApplyNoMoves(t: Tree, src: Path, dst: Path)
    requires src != dst
    ensures ApplyMoves(t, src, dst, {}) == t
  {
    var r := ApplyMoves(t, src, dst, {});
    assert r.Keys == t.Keys;
    forall p | p in r ensures r[p] == t[p] {
    }
  }

  /**
   * The loop of `mover_para_validacao`: try to move each name of `selection`
   * from `src` to `dst`, counting successes (`movidos`) and failures
   * (`erros`).
   */
  method MoveSelection(fs: FileSystem, src: Path, dst: Path, selection: seq<Name>, moveOk: nat -> bool)
    returns (moved: nat, errors: nat)
    requires src != dst
    modifies fs
    ensures moved + errors == |selection|
    ensures moved == |MovedNames(old(fs.tree), src, dst, selection, moveOk)|
    ensures fs.tree == ApplyMoves(old(fs.tree), src, dst, MovedNames(old(fs.tree), src, dst, selection, moveOk))
  {
    ghost var t0 := fs.tree;
    moved, errors := 0, 0;
    assert selection[..0] == [];
    ApplyNoMoves(t0, src, dst);
    for i := 0 to |selection|
      invariant fs.tree == ApplyMoves(t0, src, dst, MovedNames(t0, src, dst, selection[..i], moveOk))
      invariant moved == |MovedNames(t0, src, dst, selection[..i], moveOk)|
      invariant moved + errors == i
    {
      ghost var before := MovedNames(t0, src, dst, selection[..i], moveOk);
      MovedNamesStep(t0, src, dst, selection, i, moveOk);
      var ok := fs.Move(src, dst, selection[i], moveOk(i));
      if ok {
        ApplyMovesStep(t0, src, dst, before, selection[i]);
        moved := moved + 1;
      } else {
        errors := errors + 1;
      }
    }
    assert selection[..|selection|] == selection;
  }

  /**
   * `mover_para_validacao(arquivos, categoria, num_validacao)`: shuffles
   * `files` in place, then tries to move each of its first `count` names
   * from the training to the validation directory of `c`. Returns the
   * source's `movidos` and the `erros` it prints.
   */
  method MoveToValidation(fs: FileSystem, files: array<Name>, c: Category, count: nat,
                          draw: nat -> nat, moveOk: nat -> bool)
    returns (moved: nat, errors: nat)
    modifies fs, files
    ensures files[..] == Shuffled(old(files[..]), draw)
    ensures multiset(files[..]) == multiset(old(files[..]))
    ensures moved + errors == |Take(files[..], count)|
    ensures moved <= count
    ensures moved == |MovedNames(old(fs.tree), TrainDir(c), ValidationDir(c), Take(files[..], count), moveOk)|
    ensures fs.tree == ApplyMoves(old(fs.tree), TrainDir(c), ValidationDir(c),
                                  MovedNames(old(fs.tree), TrainDir(c), ValidationDir(c), Take(files[..], count), moveOk))
  {
    Shuffle(files, draw);
    var selection := Take(files[..], count);
    PathFacts();
    moved, errors := MoveSelection(fs, TrainDir(c), ValidationDir(c), selection, moveOk);
  }

  /**
   * Moving names that are images of `src` takes exactly that many images out
   * of `src`, and adds as many to `dst` when none of them was there already.
   */
  lemma MoveCounts(t: Tree, src: Path, dst: Path, moved: set<Name>)
    requires src != dst && src in t && dst in t
    requires moved <= Images(t[src])
    ensures |Images(ApplyMoves(t, src, dst, moved)[src])| == |Images(t[src])| - |moved|
    ensures moved !! Images(t[dst]) ==> |Images(ApplyMoves(t, src, dst, moved)[dst])| == |Images(t[dst])| + |moved|
  {
    var r := ApplyMoves(t, src, dst, moved);
    assert Images(r[src]) == Images(t[src]) - moved;
    assert Images(t[src]) == Images(r[src]) + moved;
    assert Images(r[dst]) == Images(t[dst]) + moved;
  }

  // ---------------------------------------------------------------------------
  // separar_dados

  /** The figures `separar_dados` prints: planned and actual moves, and the final image counts. */
  datatype Report = Report(catsToMove: nat, dogsToMove: nat, catsMoved: nat, dogsMoved: nat,
                           trainCats: nat, trainDogs: nat, validationCats: nat, validationDogs: nat)

  lemma SelectedAreImages(t: Tree, src: Path, dst: Path, listing: seq<Name>, shuffled: seq<Name>, count: nat, moveOk: nat -> bool)
    requires src in t
    requires IsListingOf(listing, Images(t[src]))
    requires multiset(shuffled) == multiset(listing)
    ensures MovedNames(t, src, dst, Take(shuffled, count), moveOk) <= Images(t[src])
  {
    var moved := MovedNames(t, src, dst, Take(shuffled, count), moveOk);
    forall x | x in moved ensures x in Images(t[src]) {
      assert x in Take(shuffled, count);
      assert x in shuffled;
      assert x in multiset(listing);
    }
  }

  /**
   * Lines 99-113 of `separar_dados` for one class: compute the validation
   * count from the listing and move that many shuffled names.
   */
  method SplitClass(fs: FileSystem, listing: seq<Name>, c: Category, draw: nat -> nat, moveOk: nat -> bool)
    returns (toMove: nat, moved: nat, ghost movedNames: set<Name>)
    requires TrainDir(c) in fs.tree
    requires IsListingOf(listing, Images(fs.tree[TrainDir(c)]))
    modifies fs
    ensures toMove == ValidationCount(|Images(old(fs.tree)[TrainDir(c)])|)
    ensures moved == |movedNames| <= toMove
    ensures movedNames <= Images(old(fs.tree)[TrainDir(c)])
    ensures movedNames == MovedNames(old(fs.tree), TrainDir(c), ValidationDir(c), Take(Shuffled(listing, draw), toMove), moveOk)
    ensures ValidationDir(c) in old(fs.tree) && (forall k :: moveOk(k)) ==> moved == toMove
    ensures fs.tree == ApplyMoves(old(fs.tree), TrainDir(c), ValidationDir(c), movedNames)
  {
    PathFacts();
    ghost var t := fs.tree;
    ListingSize(listing, Images(t[TrainDir(c)]));
    toMove := ValidationCount(|listing|);
    var files := new Name[|listing|](i requires 0 <= i < |listing| => listing[i]);
    assert files[..] == listing;
    var errors;
    moved, errors := MoveToValidation(fs, files, c, toMove, draw, moveOk);
    movedNames := MovedNames(t, TrainDir(c), ValidationDir(c), Take(files[..], toMove), moveOk);
    SelectedAreImages(t, TrainDir(c), ValidationDir(c), listing, files[..], toMove, moveOk);
    if ValidationDir(c) in t && forall k :: moveOk(k) {
      EveryMoveSucceeds(t, listing, c, draw, toMove, moveOk);
    }
  }

  /**
   * With the validation directory present and every move allowed, the whole
   * shuffled prefix of `toMove <= |listing|` names is moved.
   */
  lemma EveryMoveSucceeds(t: Tree, listing: seq<Name>, c: Category, draw: nat -> nat, toMove: nat, moveOk: nat -> bool)
    requires TrainDir(c) in t && ValidationDir(c) in t
    requires IsListingOf(listing, Images(t[TrainDir(c)]))
    requires toMove <= |listing|
    requires forall k :: moveOk(k)
    ensures |MovedNames(t, TrainDir(c), ValidationDir(c), Take(Shuffled(listing, draw), toMove), moveOk)| == toMove
  {
    var shuffled := Shuffled(listing, draw);
    var selection := Take(shuffled, toMove);
    ShuffleStepsDistinct(listing, |listing|, draw);
    assert Distinct(selection);
    forall i | 0 <= i < |selection| ensures selection[i] in t[TrainDir(c)] {
      assert selection[i] == shuffled[i];
      assert shuffled[i] in multiset(listing);
    }
    AllMovesSucceed(t, TrainDir(c), ValidationDir(c), selection, moveOk);
    ListingSize(selection, set x | x in selection);
  }

  /** The tree `separar_dados` leaves behind once `catsMoved` and `dogsMoved` have been moved. */
  function SplitTree(t: Tree, catsMoved: set<Name>, dogsMoved: set<Name>): Tree
  {
    PathFacts();
    ApplyMoves(ApplyMoves(WithValidationFolders(t), TrainDir(Cats), ValidationDir(Cats), catsMoved),
               TrainDir(Dogs), ValidationDir(Dogs), dogsMoved)
  }

  /**
   * After the split each training directory has lost exactly the images
   * moved out of it, and, when the validation directory held none of the
   * moved names, it has gained exactly as many images as were moved.
   */
  lemma SplitCounts(t: Tree, catsMoved: set<Name>, dogsMoved: set<Name>, c: Category)
    requires TrainDir(Cats) in t && TrainDir(Dogs) in t
    requires catsMoved <= Images(t[TrainDir(Cats)]) && dogsMoved <= Images(t[TrainDir(Dogs)])
    ensures var moved := if c == Cats then catsMoved else dogsMoved;
      |ImagesAt(SplitTree(t, catsMoved, dogsMoved), TrainDir(c))| == |Images(t[TrainDir(c)])| - |moved|
    ensures var moved := if c == Cats then catsMoved else dogsMoved;
      moved !! ImagesAt(t, ValidationDir(c)) ==>
        |ImagesAt(SplitTree(t, catsMoved, dogsMoved), ValidationDir(c))| == |ImagesAt(t, ValidationDir(c))| + |moved|
  {
    PathFacts();
    var t1 := WithValidationFolders(t);
    var t2 := ApplyMoves(t1, TrainDir(Cats), ValidationDir(Cats), catsMoved);
    var t3 := ApplyMoves(t2, TrainDir(Dogs), ValidationDir(Dogs), dogsMoved);
    assert ValidationDir(c) in t1;
    assert ImagesAt(t1, ValidationDir(c)) == ImagesAt(t, ValidationDir(c));
    MoveCounts(t1, TrainDir(Cats), ValidationDir(Cats), catsMoved);
    MoveCounts(t2, TrainDir(Dogs), ValidationDir(Dogs), dogsMoved);
  }

  /**
   * `separar_dados`: `None` stands for the source's `False`, `Some` for
   * `True` together with the figures it prints. The ghost results name the
   * sets of images moved for each class.
   */
  method Split(fs: FileSystem, catsDraw: nat -> nat, dogsDraw: nat -> nat,
               catsMoveOk: nat -> bool, dogsMoveOk: nat -> bool)
    returns (result: Option<Report>, ghost catsMoved: set<Name>, ghost dogsMoved: set<Name>)
    modifies fs
    ensures result.None? <==> TrainDir(Cats) !in old(fs.tree) || TrainDir(Dogs) !in old(fs.tree)
    ensures result.None? ==> fs.tree == WithValidationFolders(old(fs.tree))
    ensures result.Some? ==>
      && result.value.catsToMove == ValidationCount(|Images(old(fs.tree)[TrainDir(Cats)])|)
      && result.value.dogsToMove == ValidationCount(|Images(old(fs.tree)[TrainDir(Dogs)])|)
      && result.value.catsMoved == |catsMoved| <= result.value.catsToMove
      && result.value.dogsMoved == |dogsMoved| <= result.value.dogsToMove
      && catsMoved <= Images(old(fs.tree)[TrainDir(Cats)])
      && dogsMoved <= Images(old(fs.tree)[TrainDir(Dogs)])
      && fs.tree == SplitTree(old(fs.tree), catsMoved, dogsMoved)
    ensures result.Some? ==>
      exists listing ::
        && IsListingOf(listing, Images(old(fs.tree)[TrainDir(Cats)]))
        && catsMoved == MovedNames(WithValidationFolders(old(fs.tree)), TrainDir(Cats), ValidationDir(Cats),
                                  Take(Shuffled(listing, catsDraw), result.value.catsToMove), catsMoveOk)
    ensures result.Some? ==>
      exists listing ::
        && IsListingOf(listing, Images(old(fs.tree)[TrainDir(Dogs)]))
        && dogsMoved == MovedNames(WithValidationFolders(old(fs.tree)), TrainDir(Dogs), ValidationDir(Dogs),
                                  Take(Shuffled(listing, dogsDraw), result.value.dogsToMove), dogsMoveOk)
    ensures result.Some? && (forall k :: catsMoveOk(k)) ==> result.value.catsMoved == result.value.catsToMove
    ensures result.Some? && (forall k :: dogsMoveOk(k)) ==> result.value.dogsMoved == result.value.dogsToMove
    ensures result.Some? ==>
      && result.value.trainCats == |ImagesAt(fs.tree, TrainDir(Cats))|
      && result.value.trainDogs == |ImagesAt(fs.tree, TrainDir(Dogs))|
      && result.value.validationCats == |ImagesAt(fs.tree, ValidationDir(Cats))|
      && result.value.validationDogs == |ImagesAt(fs.tree, ValidationDir(Dogs))|
  {
    PathFacts();
    CreateValidationFolders(fs);
    ghost var t1 := fs.tree;
    var listings := CountImages(fs);
    if listings.None? {
      return None, {}, {};
    }
    var catsToMove, catsN, dogsToMove, dogsN;
    catsToMove, catsN, catsMoved := SplitClass(fs, listings.value.0, Cats, catsDraw, catsMoveOk);
    ghost var t2 := fs.tree;
    dogsToMove, dogsN, dogsMoved := SplitClass(fs, listings.value.1, Dogs, dogsDraw, dogsMoveOk);
    MovedNamesFrame(t2, t1, TrainDir(Dogs), ValidationDir(Dogs),
                    Take(Shuffled(listings.value.1, dogsDraw), dogsToMove), dogsMoveOk);
    var trainCats := ImageCountOf(fs, TrainDir(Cats));
    var trainDogs := ImageCountOf(fs, TrainDir(Dogs));
    var validationCats := ImageCountOf(fs, ValidationDir(Cats));
    var validationDogs := ImageCountOf(fs, ValidationDir(Dogs));
    result := Some(Report(catsToMove, dogsToMove, catsN, dogsN, trainCats, trainDogs, validationCats, validationDogs));
  }
}
