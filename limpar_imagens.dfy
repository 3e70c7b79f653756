/**
 * The image cleaner: for each of four fixed directories that exists, it
 * checks every image file, deletes those that do not decode or are smaller
 * than 10x10 pixels, and keeps running totals.
 */
module CleanImages {
  import opened Wrappers
  import opened Names
  import opened FileSystemModel

  /** The directories the cleaner visits, in its order. */
  const Directories: seq<Path> := ["data/train/cats", "data/train/dogs", "data/validation/cats", "data/validation/dogs"]

  /** The extensions the cleaner lists, compared after lower-casing. */
  const CleanerExtensions: seq<string> := [".jpg", ".jpeg", ".png", ".gif", ".bmp"]

  /** Images narrower or lower than this many pixels are rejected. */
  const MinSide: nat := 10

  const TooSmall: string := "Imagem muito pequena"

  /**
   * What opening a file with the imaging library gives: the message of the
   * exception raised by `open`, `verify` or `load`, or the image's size.
   */
  datatype Decoded = Failed(message: string) | Size(width: nat, height: nat)

  /** The environment: how each path decodes, and whether `os.remove` on it succeeds. */
  datatype Env = Env(decode: Path -> Decoded, removeOk: Path -> bool)

  /**
   * `verificar_imagem`: `(True, "OK")` for a decodable image of at least
   * 10x10 pixels, `(False, "Imagem muito pequena")` for a smaller one, and
   * `(False, <exception message>)` when decoding fails.
   */
  function CheckImage(d: Decoded): (r: (bool, string))
    ensures r.0 <==> d.Size? && d.width >= MinSide && d.height >= MinSide
    ensures r.0 ==> r.1 == "OK"
    ensures d.Size? ==> (r == (false, TooSmall) <==> d.width < MinSide || d.height < MinSide)
    ensures d.Failed? ==> r == (false, d.message)
  {
    match d
    case Failed(message) => (false, message)
    case Size(width, height) =>
      if width < MinSide || height < MinSide then (false, TooSmall) else (true, "OK")
  }

  /** `os.path.join(diretorio, arquivo)` */
  function Join(dir: Path, name: Name): (r: Path)
    ensures |r| == |dir| + 1 + |name| && r[|dir|] == '/'
  {
    dir + "/" + name
  }

  /** The two parts of a joined path are the directory and the name. */
  lemma JoinParts(dir: Path, name: Name)
    ensures Join(dir, name)[..|dir|] == dir && Join(dir, name)[|dir| + 1..] == name
  {
  }

  /** What the cleaner does with a listed file: keeps it, deletes it, or fails to delete it. */
  datatype Fate = Kept | Deleted | Undeletable

  function FateOf(env: Env, dir: Path, name: Name): (r: Fate)
    ensures r == Kept <==> CheckImage(env.decode(Join(dir, name))).0
    ensures r == Deleted <==> !CheckImage(env.decode(Join(dir, name))).0 && env.removeOk(Join(dir, name))
  {
    var path := Join(dir, name);
    if CheckImage(env.decode(path)).0 then Kept
    else if env.removeOk(path) then Deleted
    else Undeletable
  }

  /** The names the cleaner lists in a directory holding `names`. */
  function Listed(names: set<Name>): (r: set<Name>)
    ensures r <= names
    ensures forall f :: f in r <==> f in names && HasExtension(f, CleanerExtensions)
  {
    WithExtension(names, CleanerExtensions)
  }

  /** The listed names of `dir` that meet `fate`. */
  function WithFate(names: set<Name>, env: Env, dir: Path, fate: Fate): set<Name>
  {
    set f | f in Listed(names) && FateOf(env, dir, f) == fate
  }

  /** The names of a listing that meet `fate`. */
  function Among(s: seq<Name>, env: Env, dir: Path, fate: Fate): set<Name>
    decreases |s|
  {
    if s == [] then {}
    else
      var last := s[|s| - 1];
      Among(s[..|s| - 1], env, dir, fate) + if FateOf(env, dir, last) == fate then {last} else {}
  }

  lemma {:induction false} AmongMembers(s: seq<Name>, env: Env, dir: Path, fate: Fate)
    ensures forall f :: f in Among(s, env, dir, fate) <==> f in s && FateOf(env, dir, f) == fate
    decreases |s|
  {
    if s != [] {
      var init := s[..|s| - 1];
      AmongMembers(init, env, dir, fate);
      assert forall f :: f in s <==> f in init || f == s[|s| - 1];
    }
  }

  /** Every listed file meets exactly one fate, so the three counts add up to the listing's size. */
  lemma FatePartition(names: set<Name>, env: Env, dir: Path)
    ensures |Listed(names)| == |WithFate(names, env, dir, Kept)| + |WithFate(names, env, dir, Deleted)|
                               + |WithFate(names, env, dir, Undeletable)|
  {
    var k, d, u := WithFate(names, env, dir, Kept), WithFate(names, env, dir, Deleted), WithFate(names, env, dir, Undeletable);
    assert Listed(names) == k + d + u;
    assert k !! d && (k + d) !! u;
  }

  /** The tree after the cleaner has processed `dir`. */
  function CleanOne(t: Tree, env: Env, dir: Path): (r: Tree)
    ensures r.Keys == t.Keys
  {
    if dir in t then t[dir := t[dir] - WithFate(t[dir], env, dir, Deleted)] else t
  }

  /** The tree after the cleaner has processed every directory of `dirs`. */
  function Cleaned(t: Tree, env: Env, dirs: seq<Path>): (r: Tree)
    ensures r.Keys == t.Keys
  {
    map p | p in t :: if p in dirs then t[p] - WithFate(t[p], env, p, Deleted) else t[p]
  }

  /** The per-directory figures the cleaner prints: `Total de arquivos` and `Removidas`. */
  datatype DirReport = Missing | Checked(files: nat, removed: nat)

  function ReportFor(t: Tree, env: Env, dir: Path): DirReport
  {
    if dir in t then Checked(|Listed(t[dir])|, |WithFate(t[dir], env, dir, Deleted)|) else Missing
  }

  /** `total_verificadas`, `total_ok`, `total_removidas`. */
  datatype Totals = Totals(verified: nat, ok: nat, removed: nat)

  function Plus(a: Totals, b: Totals): Totals
  {
    Totals(a.verified + b.verified, a.ok + b.ok, a.removed + b.removed)
  }

  /** What one directory adds to the totals; a missing directory adds nothing. */
  function DirTotals(t: Tree, env: Env, dir: Path): Totals
  {
    if dir in t then Totals(|Listed(t[dir])|, |WithFate(t[dir], env, dir, Kept)|, |WithFate(t[dir], env, dir, Deleted)|)
    else Totals(0, 0, 0)
  }

  function TotalsOver(t: Tree, env: Env, dirs: seq<Path>): Totals
    decreases |dirs|
  {
    if dirs == [] then Totals(0, 0, 0)
    else Plus(TotalsOver(t, env, dirs[..|dirs| - 1]), DirTotals(t, env, dirs[|dirs| - 1]))
  }

  /** No deletion the cleaner attempts in `dirs` fails. */
  ghost predicate NoFailedRemoval(t: Tree, env: Env, dirs: seq<Path>)
  {
    forall dir :: dir in dirs && dir in t ==> WithFate(t[dir], env, dir, Undeletable) == {}
  }

  lemma DirectoriesDistinct()
    ensures Distinct(Directories)
  {
    assert Directories[0][11] != Directories[1][11];
    assert Directories[2][16] != Directories[3][16];
    assert Directories[0][5] != Directories[2][5] && Directories[0][5] != Directories[3][5];
    assert Directories[1][5] != Directories[2][5] && Directories[1][5] != Directories[3][5];
  }

  /**
   * The running totals never count more kept and deleted files than checked
   * ones, and they account for every checked file exactly when no deletion
   * failed.
   */
  lemma {:induction false} TotalsBalance(t: Tree, env: Env, dirs: seq<Path>)
    ensures TotalsOver(t, env, dirs).ok + TotalsOver(t, env, dirs).removed <= TotalsOver(t, env, dirs).verified
    ensures TotalsOver(t, env, dirs).ok + TotalsOver(t, env, dirs).removed == TotalsOver(t, env, dirs).verified
            <==> NoFailedRemoval(t, env, dirs)
    decreases |dirs|
  {
    if dirs != [] {
      var init, last := dirs[..|dirs| - 1], dirs[|dirs| - 1];
      TotalsBalance(t, env, init);
      if last in t {
        FatePartition(t[last], env, last);
      }
      assert forall dir :: dir in dirs <==> dir in init || dir == last;
    }
  }

  // ---------------------------------------------------------------------------
  // limpar_diretorios

  lemma AmongStep(s: seq<Name>, k: nat, env: Env, dir: Path, fate: Fate)
    requires k < |s| && Distinct(s)
    ensures s[k] !in Among(s[..k], env, dir, fate)
    ensures FateOf(env, dir, s[k]) == fate ==> Among(s[..k + 1], env, dir, fate) == Among(s[..k], env, dir, fate) + {s[k]}
    ensures FateOf(env, dir, s[k]) != fate ==> Among(s[..k + 1], env, dir, fate) == Among(s[..k], env, dir, fate)
  {
    assert s[..k + 1][..k] == s[..k];
    AmongMembers(s[..k], env, dir, fate);
    if FateOf(env, dir, s[k]) != fate {
      assert Among(s[..k], env, dir, fate) + {} == Among(s[..k], env, dir, fate);
    }
  }

  lemma RemoveAgain(t: Tree, dir: Path, gone: set<Name>, name: Name)
    requires dir in t
    ensures RemovedFile(t[dir := t[dir] - gone], dir, name) == t[dir := t[dir] - (gone + {name})]
  {
    var a := RemovedFile(t[dir := t[dir] - gone], dir, name);
    var b := t[dir := t[dir] - (gone + {name})];
    assert (t[dir] - gone) - {name} == t[dir] - (gone + {name});
    assert a.Keys == b.Keys;
    forall p | p in a ensures a[p] == b[p] {
    }
  }

  /** The state the inner loop of `limpar_diretorios` updates. */
  datatype Pass = Pass(tree: Tree, totals: Totals, removedHere: nat)

  /** One iteration of the inner loop: count the file, then keep it or try to delete it. */
  function CheckStep(p: Pass, env: Env, dir: Path, name: Name): (r: Pass)
    ensures r.tree.Keys == p.tree.Keys
    ensures r.totals.verified == p.totals.verified + 1
  {
    var path := Join(dir, name);
    var counted := p.totals.(verified := p.totals.verified + 1);
    if CheckImage(env.decode(path)).0 then
      p.(totals := counted.(ok := counted.ok + 1))
    else if RemoveSucceeds(p.tree, dir, name, env.removeOk(path)) then
      Pass(RemovedFile(p.tree, dir, name), counted.(removed := counted.removed + 1), p.removedHere + 1)
    else
      p.(totals := counted)
  }

  /** The inner loop run over `files`, starting from `start`. */
  function CheckAll(start: Pass, env: Env, dir: Path, files: seq<Name>): (r: Pass)
    ensures r.tree.Keys == start.tree.Keys
    ensures r.totals.verified == start.totals.verified + |files|
    decreases |files|
  {
    if files == [] then start
    else CheckStep(CheckAll(start, env, dir, files[..|files| - 1]), env, dir, files[|files| - 1])
  }

  /** One iteration on a file that is still present, by the file's fate. */
  lemma CheckStepEffect(t: Tree, env: Env, dir: Path, gone: set<Name>, totals: Totals, removedHere: nat, name: Name)
    requires dir in t && name in t[dir] && name !in gone
    ensures var p := Pass(t[dir := t[dir] - gone], totals, removedHere);
      CheckStep(p, env, dir, name)
      == match FateOf(env, dir, name)
         case Kept => Pass(p.tree, Totals(totals.verified + 1, totals.ok + 1, totals.removed), removedHere)
         case Deleted => Pass(t[dir := t[dir] - (gone + {name})],
                              Totals(totals.verified + 1, totals.ok, totals.removed + 1), removedHere + 1)
         case Undeletable => Pass(p.tree, Totals(totals.verified + 1, totals.ok, totals.removed), removedHere)
  {
    if FateOf(env, dir, name) == Deleted {
      RemoveAgain(t, dir, gone, name);
    }
  }

  /**
   * Over `files`, the inner loop counts every file, counts the kept ones as
   * OK, and deletes and counts exactly the rejected files whose deletion
   * succeeds.
   */
  predicate CheckAllMatchesFates(t: Tree, env: Env, dir: Path, files: seq<Name>, before: Totals)
    requires dir in t
  {
    var kept, gone := Among(files, env, dir, Kept), Among(files, env, dir, Deleted);
    CheckAll(Pass(t, before, 0), env, dir, files)
    == Pass(t[dir := t[dir] - gone], Plus(before, Totals(|files|, |kept|, |gone|)), |gone|)
  }

  /**
   * What the three inductive steps of `CheckAllEffect` share: the loop over
   * `files` is one more iteration after the loop over all but the last
   * file, and the last file is still present and joins the names of its fate.
   */
  lemma CheckAllLast(t: Tree, env: Env, dir: Path, files: seq<Name>, before: Totals)
    requires dir in t && |files| > 0
    requires Distinct(files) && forall f :: f in files ==> f in t[dir]
    requires CheckAllMatchesFates(t, env, dir, files[..|files| - 1], before)
    ensures var k := |files| - 1;
      var kept, gone := Among(files[..k], env, dir, Kept), Among(files[..k], env, dir, Deleted);
      && CheckAll(Pass(t, before, 0), env, dir, files)
         == CheckStep(Pass(t[dir := t[dir] - gone], Plus(before, Totals(k, |kept|, |gone|)), |gone|), env, dir, files[k])
      && files[k] in t[dir] && files[k] !in gone && files[k] !in kept
      && Among(files, env, dir, Kept) == kept + (if FateOf(env, dir, files[k]) == Kept then {files[k]} else {})
      && Among(files, env, dir, Deleted) == gone + (if FateOf(env, dir, files[k]) == Deleted then {files[k]} else {})
  {
    var k := |files| - 1;
    assert files[..k + 1] == files;
    AmongStep(files, k, env, dir, Kept);
    AmongStep(files, k, env, dir, Deleted);
  }

  /** The inductive step of `CheckAllEffect` for a last file whose fate is `Kept`. */
  lemma CheckAllKeptStep(t: Tree, env: Env, dir: Path, files: seq<Name>, before: Totals)
    requires dir in t && |files| > 0 && FateOf(env, dir, files[|files| - 1]) == Kept
    requires Distinct(files) && forall f :: f in files ==> f in t[dir]
    requires CheckAllMatchesFates(t, env, dir, files[..|files| - 1], before)
    ensures CheckAllMatchesFates(t, env, dir, files, before)
  {
    var k := |files| - 1;
    var kept, gone := Among(files[..k], env, dir, Kept), Among(files[..k], env, dir, Deleted);
    CheckAllLast(t, env, dir, files, before);
    CheckStepEffect(t, env, dir, gone, Plus(before, Totals(k, |kept|, |gone|)), |gone|, files[k]);
    assert Among(files, env, dir, Kept) == kept + {files[k]};
    assert Among(files, env, dir, Deleted) == gone;
    assert |kept + {files[k]}| == |kept| + 1;
  }

  /** The inductive step of `CheckAllEffect` for a last file whose fate is `Deleted`. */
  lemma CheckAllDeletedStep(t: Tree, env: Env, dir: Path, files: seq<Name>, before: Totals)
    requires dir in t && |files| > 0 && FateOf(env, dir, files[|files| - 1]) == Deleted
    requires Distinct(files) && forall f :: f in files ==> f in t[dir]
    requires CheckAllMatchesFates(t, env, dir, files[..|files| - 1], before)
    ensures CheckAllMatchesFates(t, env, dir, files, before)
  {
    var k := |files| - 1;
    var kept, gone := Among(files[..k], env, dir, Kept), Among(files[..k], env, dir, Deleted);
    CheckAllLast(t, env, dir, files, before);
    CheckStepEffect(t, env, dir, gone, Plus(before, Totals(k, |kept|, |gone|)), |gone|, files[k]);
    assert Among(files, env, dir, Kept) == kept;
    assert Among(files, env, dir, Deleted) == gone + {files[k]};
    assert |gone + {files[k]}| == |gone| + 1;
  }

  /** The inductive step of `CheckAllEffect` for a last file whose fate is `Undeletable`. */
  lemma CheckAllUndeletableStep(t: Tree, env: Env, dir: Path, files: seq<Name>, before: Totals)
    requires dir in t && |files| > 0 && FateOf(env, dir, files[|files| - 1]) == Undeletable
    requires Distinct(files) && forall f :: f in files ==> f in t[dir]
    requires CheckAllMatchesFates(t, env, dir, files[..|files| - 1], before)
    ensures CheckAllMatchesFates(t, env, dir, files, before)
  {
    var k := |files| - 1;
    var kept, gone := Among(files[..k], env, dir, Kept), Among(files[..k], env, dir, Deleted);
    CheckAllLast(t, env, dir, files, before);
    CheckStepEffect(t, env, dir, gone, Plus(before, Totals(k, |kept|, |gone|)), |gone|, files[k]);
    assert Among(files, env, dir, Kept) == kept;
    assert Among(files, env, dir, Deleted) == gone;
  }

  /**
   * Over a listing of distinct files of `dir`, the inner loop counts every
   * file, counts the kept ones as OK, and deletes and counts exactly the
   * rejected files whose deletion succeeds.
   */
  lemma {:induction false} CheckAllEffect(t: Tree, env: Env, dir: Path, files: seq<Name>, before: Totals)
    requires dir in t
    requires Distinct(files) && forall f :: f in files ==> f in t[dir]
    ensures var kept, gone := Among(files, env, dir, Kept), Among(files, env, dir, Deleted);
      CheckAll(Pass(t, before, 0), env, dir, files)
      == Pass(t[dir := t[dir] - gone], Plus(before, Totals(|files|, |kept|, |gone|)), |gone|)
    decreases |files|
  {
    if files == [] {
      assert t[dir] - {} == t[dir];
      assert t[dir := t[dir]] == t;
    } else {
      var init := files[..|files| - 1];
      assert forall f :: f in init ==> f in files;
      assert Distinct(init);
      CheckAllEffect(t, env, dir, init, before);
      match FateOf(env, dir, files[|files| - 1])
      case Kept => CheckAllKeptStep(t, env, dir, files, before);
      case Deleted => CheckAllDeletedStep(t, env, dir, files, before);
      case Undeletable => CheckAllUndeletableStep(t, env, dir, files, before);
    }
  }

  /**
   * The inner loop of `limpar_diretorios` over the listed `files` of `dir`:
   * count each file, check it, count it as OK or try to delete it.
   */
  method CheckFiles(fs: FileSystem, env: Env, dir: Path, files: seq<Name>, before: Totals)
    returns (after: Totals, removedHere: nat)
    modifies fs
    ensures Pass(fs.tree, after, removedHere) == CheckAll(Pass(old(fs.tree), before, 0), env, dir, files)
  {
    ghost var start := Pass(fs.tree, before, 0);
    var verified, ok, removed := before.verified, before.ok, before.removed;
    removedHere := 0;
    assert files[..0] == [];
    for k := 0 to |files|
      invariant Pass(fs.tree, Totals(verified, ok, removed), removedHere) == CheckAll(start, env, dir, files[..k])
    {
      assert files[..k + 1][..k] == files[..k];
      var name := files[k];
      var path := Join(dir, name);
      verified := verified + 1;
      var check := CheckImage(env.decode(path));
      if !check.0 {
        var gone := fs.Remove(dir, name, env.removeOk(path));
        if gone {
          removed := removed + 1;
          removedHere := removedHere + 1;
        }
      } else {
        ok := ok + 1;
      }
    }
    assert files[..|files|] == files;
    after := Totals(verified, ok, removed);
  }

  /**
   * One pass of the outer loop of `limpar_diretorios`: skip `dir` when it
   * does not exist, otherwise check each listed file, update the running
   * totals and delete the rejected files.
   */
  method CleanDirectory(fs: FileSystem, env: Env, dir: Path, before: Totals)
    returns (after: Totals, report: DirReport)
    modifies fs
    ensures report == ReportFor(old(fs.tree), env, dir)
    ensures after == Plus(before, DirTotals(old(fs.tree), env, dir))
    ensures fs.tree == CleanOne(old(fs.tree), env, dir)
  {
    if dir !in fs.tree {
      return before, Missing;
    }
    ghost var t0 := fs.tree;
    var listing := fs.ListDir(dir);
    var files := KeepWithExtension(listing.value, CleanerExtensions);
    KeptListing(listing.value, t0[dir], CleanerExtensions);
    var removedHere;
    after, removedHere := CheckFiles(fs, env, dir, files, before);
    CheckAllEffect(t0, env, dir, files, before);
    AmongMembers(files, env, dir, Kept);
    AmongMembers(files, env, dir, Deleted);
    assert Among(files, env, dir, Kept) == WithFate(t0[dir], env, dir, Kept);
    assert Among(files, env, dir, Deleted) == WithFate(t0[dir], env, dir, Deleted);
    report := Checked(|files|, removedHere);
  }

  function ReportsOver(t: Tree, env: Env, dirs: seq<Path>): (r: seq<DirReport>)
    ensures |r| == |dirs|
    ensures forall i :: 0 <= i < |dirs| ==> r[i] == ReportFor(t, env, dirs[i])
    decreases |dirs|
  {
    if dirs == [] then []
    else ReportsOver(t, env, dirs[..|dirs| - 1]) + [ReportFor(t, env, dirs[|dirs| - 1])]
  }

  /** The sums of the printed per-directory file and removal figures; a skipped directory prints neither. */
  function ReportSums(reports: seq<DirReport>): (nat, nat)
    decreases |reports|
  {
    if reports == [] then (0, 0)
    else
      var init := ReportSums(reports[..|reports| - 1]);
      match reports[|reports| - 1]
      case Missing => init
      case Checked(files, removed) => (init.0 + files, init.1 + removed)
  }

  /**
   * The per-directory figures add up to the totals: the file counts to
   * `total_verificadas`, the removals to `total_removidas`.
   */
  lemma {:induction false} ReportsSumToTotals(t: Tree, env: Env, dirs: seq<Path>)
    ensures ReportSums(ReportsOver(t, env, dirs)) == (TotalsOver(t, env, dirs).verified, TotalsOver(t, env, dirs).removed)
    decreases |dirs|
  {
    if dirs != [] {
      var init := dirs[..|dirs| - 1];
      var last := dirs[|dirs| - 1];
      ReportsSumToTotals(t, env, init);
      var before, report := ReportsOver(t, env, init), ReportFor(t, env, last);
      assert ReportsOver(t, env, dirs) == before + [report];
      assert TotalsOver(t, env, dirs) == Plus(TotalsOver(t, env, init), DirTotals(t, env, last));
      ReportSumsStep(before, report);
      ReportAgreesWithTotals(t, env, last);
    }
  }

  /** Appending a report adds its figures; a `Missing` report adds none. */
  lemma ReportSumsStep(reports: seq<DirReport>, report: DirReport)
    ensures var sums := ReportSums(reports);
      ReportSums(reports + [report])
      == if report.Checked? then (sums.0 + report.files, sums.1 + report.removed) else sums
  {
    var r := reports + [report];
    assert r[..|r| - 1] == reports;
  }

  /** A directory's report shows the figures it adds to the totals. */
  lemma ReportAgreesWithTotals(t: Tree, env: Env, dir: Path)
    ensures var report, d := ReportFor(t, env, dir), DirTotals(t, env, dir);
      && (report.Missing? ==> d == Totals(0, 0, 0))
      && (report.Checked? ==> report.files == d.verified && report.removed == d.removed)
  {
  }

  /** Cleaning the first `i` directories does not touch directory `i`. */
  lemma UntouchedBefore(t: Tree, env: Env, i: nat)
    requires i < |Directories|
    ensures var before := Cleaned(t, env, Directories[..i]);
      && (Directories[i] in before <==> Directories[i] in t)
      && (Directories[i] in t ==> before[Directories[i]] == t[Directories[i]])
  {
    DirectoriesDistinct();
    assert Directories[i] !in Directories[..i];
  }

  lemma CleanedStep(t: Tree, env: Env, i: nat)
    requires i < |Directories|
    ensures CleanOne(Cleaned(t, env, Directories[..i]), env, Directories[i]) == Cleaned(t, env, Directories[..i + 1])
  {
    UntouchedBefore(t, env, i);
    var dir := Directories[i];
    assert forall p :: p in Directories[..i + 1] <==> p in Directories[..i] || p == dir;
    var a := CleanOne(Cleaned(t, env, Directories[..i]), env, dir);
    var b := Cleaned(t, env, Directories[..i + 1]);
    forall p | p in a ensures a[p] == b[p] {
    }
  }

  /** Directory `i` is checked, reported and counted as it was initially. */
  lemma OuterStep(t: Tree, env: Env, i: nat)
    requires i < |Directories|
    ensures var before := Cleaned(t, env, Directories[..i]);
      && ReportFor(before, env, Directories[i]) == ReportFor(t, env, Directories[i])
      && DirTotals(before, env, Directories[i]) == DirTotals(t, env, Directories[i])
  {
    UntouchedBefore(t, env, i);
  }

  lemma TotalsOverStep(t: Tree, env: Env, dirs: seq<Path>, i: nat)
    requires i < |dirs|
    ensures TotalsOver(t, env, dirs[..i + 1]) == Plus(TotalsOver(t, env, dirs[..i]), DirTotals(t, env, dirs[i]))
  {
    assert dirs[..i + 1][..i] == dirs[..i];
  }

  lemma ReportsOverStep(t: Tree, env: Env, dirs: seq<Path>, i: nat)
    requires i < |dirs|
    ensures ReportsOver(t, env, dirs[..i + 1]) == ReportsOver(t, env, dirs[..i]) + [ReportFor(t, env, dirs[i])]
  {
    assert dirs[..i + 1][..i] == dirs[..i];
  }

  lemma CleanedNothing(t: Tree, env: Env)
    ensures Cleaned(t, env, Directories[..0]) == t
  {
    assert Directories[..0] == [];
  }

  /** `(total_removidas / total_verificadas) * 100`, in exact arithmetic. */
  function Percentage(removed: nat, verified: nat): (r: real)
    requires 0 < removed <= verified
    ensures 0.0 < r <= 100.0
  {
    assert removed as real / verified as real <= 1.0;
    removed as real / verified as real * 100.0
  }

  /**
   * The `CONTAGEM FINAL` loop: each of the four directories that exists is
   * listed again and its images counted; a missing one prints nothing.
   */
  method FinalCounts(fs: FileSystem) returns (counts: seq<Option<nat>>)
    ensures |counts| == |Directories|
    ensures forall i :: 0 <= i < |Directories| ==> (counts[i].None? <==> Directories[i] !in fs.tree)
    ensures forall i :: 0 <= i < |Directories| && counts[i].Some? ==> counts[i].value == |Listed(fs.tree[Directories[i]])|
  {
    counts := [];
    for i := 0 to |Directories|
      invariant |counts| == i
      invariant forall j :: 0 <= j < i ==> (counts[j].None? <==> Directories[j] !in fs.tree)
      invariant forall j :: 0 <= j < i && counts[j].Some? ==> counts[j].value == |Listed(fs.tree[Directories[j]])|
    {
      var dir := Directories[i];
      var listing := fs.ListDir(dir);
      if listing.Some? {
        var files := KeepWithExtension(listing.value, CleanerExtensions);
        KeptListing(listing.value, fs.tree[dir], CleanerExtensions);
        counts := counts + [Some(|files|)];
      } else {
        counts := counts + [None];
      }
    }
  }

  /**
   * The outer loop of `limpar_diretorios`: clean the four directories in
   * order, keeping the running totals and the per-directory figures.
   */
  method CleanEach(fs: FileSystem, env: Env) returns (totals: Totals, reports: seq<DirReport>)
    modifies fs
    ensures reports == ReportsOver(old(fs.tree), env, Directories)
    ensures totals == TotalsOver(old(fs.tree), env, Directories)
    ensures fs.tree == Cleaned(old(fs.tree), env, Directories)
  {
    ghost var t0 := fs.tree;
    totals := Totals(0, 0, 0);
    reports := [];
    CleanedNothing(t0, env);
    for i := 0 to |Directories|
      invariant fs.tree == Cleaned(t0, env, Directories[..i])
      invariant reports == ReportsOver(t0, env, Directories[..i])
      invariant totals == TotalsOver(t0, env, Directories[..i])
    {
      OuterStep(t0, env, i);
      CleanedStep(t0, env, i);
      TotalsOverStep(t0, env, Directories, i);
      ReportsOverStep(t0, env, Directories, i);
      var report;
      totals, report := CleanDirectory(fs, env, Directories[i], totals);
      reports := reports + [report];
    }
    assert Directories[..|Directories|] == Directories;
  }

  /**
   * `limpar_diretorios`: returns the final totals, the per-directory
   * figures it prints, the removal percentage, which it computes only
   * when something was removed, and the final image count of each
   * directory, which is what its report said would remain.
   */
  method CleanDirectories(fs: FileSystem, env: Env)
    returns (totals: Totals, reports: seq<DirReport>, percent: Option<real>, finalCounts: seq<Option<nat>>)
    modifies fs
    ensures reports == ReportsOver(old(fs.tree), env, Directories)
    ensures totals == TotalsOver(old(fs.tree), env, Directories)
    ensures fs.tree == Cleaned(old(fs.tree), env, Directories)
    ensures percent.Some? <==> totals.removed > 0
    ensures percent.Some? ==> 0 < totals.removed <= totals.verified && percent.value == Percentage(totals.removed, totals.verified)
    ensures |finalCounts| == |Directories|
    ensures forall i :: 0 <= i < |Directories| ==> (finalCounts[i].None? <==> reports[i].Missing?)
    ensures forall i :: 0 <= i < |Directories| && reports[i].Checked? ==>
              reports[i].removed <= reports[i].files && finalCounts[i] == Some(reports[i].files - reports[i].removed)
  {
    ghost var t0 := fs.tree;
    totals, reports := CleanEach(fs, env);
    TotalsBalance(t0, env, Directories);
    if totals.removed > 0 {
      percent := Some(Percentage(totals.removed, totals.verified));
    } else {
      percent := None;
    }
    finalCounts := FinalCounts(fs);
    FinalCountsMatchReports(t0, env, reports, finalCounts);
  }

  /** Counted on the cleaned tree, each directory holds what its report said would remain. */
  lemma FinalCountsMatchReports(t: Tree, env: Env, reports: seq<DirReport>, counts: seq<Option<nat>>)
    requires reports == ReportsOver(t, env, Directories)
    requires |counts| == |Directories|
    requires forall i :: 0 <= i < |Directories| ==> (counts[i].None? <==> Directories[i] !in Cleaned(t, env, Directories))
    requires forall i :: 0 <= i < |Directories| && counts[i].Some? ==>
               counts[i].value == |Listed(Cleaned(t, env, Directories)[Directories[i]])|
    ensures forall i :: 0 <= i < |Directories| ==> (counts[i].None? <==> reports[i].Missing?)
    ensures forall i :: 0 <= i < |Directories| && reports[i].Checked? ==>
              reports[i].removed <= reports[i].files && counts[i] == Some(reports[i].files - reports[i].removed)
  {
    forall i | 0 <= i < |Directories| && Directories[i] in t
      ensures reports[i].removed <= reports[i].files && counts[i] == Some(reports[i].files - reports[i].removed)
    {
      RemainingMatchesFinalCount(t, env, Directories[i]);
    }
  }

  // ---------------------------------------------------------------------------
  // What the cleaning leaves behind

  /**
   * A file disappears exactly when it is a listed file of one of the four
   * directories whose check failed and whose deletion succeeded; in
   * particular a file judged OK is still there.
   */
  lemma RemovedExactly(t: Tree, env: Env, p: Path, f: Name)
    requires p in t && f in t[p]
    ensures f !in Cleaned(t, env, Directories)[p]
            <==> p in Directories && f in Listed(t[p]) && !CheckImage(env.decode(Join(p, f))).0
                 && env.removeOk(Join(p, f))
  {
  }

  /** When no deletion fails, every image left in the four directories decodes and is at least 10x10. */
  lemma RemainingImagesAreValid(t: Tree, env: Env, dir: Path, f: Name)
    requires NoFailedRemoval(t, env, Directories)
    requires dir in Directories && dir in t
    requires f in Listed(Cleaned(t, env, Directories)[dir])
    ensures CheckImage(env.decode(Join(dir, f))).0
  {
    var fate := FateOf(env, dir, f);
    assert f in WithFate(t[dir], env, dir, fate);
    assert fate != Undeletable;
    assert fate != Deleted;
  }

  /**
   * For a directory that exists, the printed removals never exceed the
   * printed file count, and the printed `Restantes` figure is the number of
   * images the final count finds there.
   */
  lemma RemainingMatchesFinalCount(t: Tree, env: Env, dir: Path)
    requires dir in Directories && dir in t
    ensures ReportFor(t, env, dir).Checked?
    ensures ReportFor(t, env, dir).removed <= ReportFor(t, env, dir).files
    ensures |Listed(Cleaned(t, env, Directories)[dir])| == ReportFor(t, env, dir).files - ReportFor(t, env, dir).removed
  {
    var gone := WithFate(t[dir], env, dir, Deleted);
    FatePartition(t[dir], env, dir);
    assert Listed(Cleaned(t, env, Directories)[dir]) == Listed(t[dir]) - gone;
    assert gone <= Listed(t[dir]);
  }
}
