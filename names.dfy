/**
 * File names and the case-insensitive extension rule that both the splitter
 * and the cleaner apply to a directory listing
 * (`f.lower().endswith((...))`).
 */
module Names {

  type Name = string

  /** A directory or file path, written with `/` or `\\` separators. */
  type Path = string

  /** `str.lower()` on one character; only ASCII letters are folded. */
  function LowerChar(c: char): char
  {
    if 'A' <= c <= 'Z' then (c as int + 32) as char else c
  }

  /** `str.lower()`: a character-by-character fold that leaves no ASCII capital behind. */
  function Lower(s: string): (r: string)
    ensures |r| == |s|
    ensures forall i :: 0 <= i < |s| ==> r[i] == LowerChar(s[i])
    ensures forall i :: 0 <= i < |r| ==> !('A' <= r[i] <= 'Z')
  {
    seq(|s|, i requires 0 <= i < |s| => LowerChar(s[i]))
  }

  predicate EndsWith(s: string, suffix: string)
  {
    |suffix| <= |s| && s[|s| - |suffix|..] == suffix
  }

  /** `name.lower().endswith(tuple(extensions))` */
  predicate HasExtension(name: Name, extensions: seq<string>)
  {
    exists e :: e in extensions && EndsWith(Lower(name), e)
  }

  predicate Distinct(s: seq<Name>)
  {
    forall i, j :: 0 <= i < j < |s| ==> s[i] != s[j]
  }

  /** The names of `names` that the rule keeps, as a set. */
  function WithExtension(names: set<Name>, extensions: seq<string>): (r: set<Name>)
    ensures r <= names
    ensures forall x :: x in r <==> x in names && HasExtension(x, extensions)
  {
    set x | x in names && HasExtension(x, extensions)
  }

  /** `s` lists every element of `names` exactly once, in some order. */
  ghost predicate IsListingOf(s: seq<Name>, names: set<Name>)
  {
    Distinct(s) && forall x :: x in s <==> x in names
  }

  /**
   * The list comprehension `[f for f in names if f.lower().endswith(extensions)]`:
   * it keeps exactly the names with one of the extensions, in their order.
   */
  function KeepWithExtension(names: seq<Name>, extensions: seq<string>): (kept: seq<Name>)
    ensures forall x :: x in kept <==> x in names && HasExtension(x, extensions)
    ensures |kept| <= |names|
    ensures Distinct(names) ==> Distinct(kept)
    ensures forall i :: 0 <= i < |kept| ==> HasExtension(kept[i], extensions)
  {
    if names == [] then []
    else
      var rest := KeepWithExtension(names[1..], extensions);
      if HasExtension(names[0], extensions) then [names[0]] + rest else rest
  }

  /** The filter keeps order: filtering a concatenation filters each part in turn. */
  lemma {:induction false} KeepWithExtensionAppend(a: seq<Name>, b: seq<Name>, extensions: seq<string>)
    ensures KeepWithExtension(a + b, extensions) == KeepWithExtension(a, extensions) + KeepWithExtension(b, extensions)
    decreases |a|
  {
    if a == [] {
      assert a + b == b;
    } else {
      assert (a + b)[1..] == a[1..] + b;
      KeepWithExtensionAppend(a[1..], b, extensions);
    }
  }

  /** A single name is kept exactly when it has one of the extensions. */
  lemma KeepWithExtensionSingle(x: Name, extensions: seq<string>)
    ensures KeepWithExtension([x], extensions) == if HasExtension(x, extensions) then [x] else []
  {
    assert [x][1..] == [];
  }

  /** The rule ignores case: a name and its lower-cased form are kept alike. */
  lemma HasExtensionIgnoresCase(name: Name, extensions: seq<string>)
    ensures HasExtension(Lower(name), extensions) <==> HasExtension(name, extensions)
  {
    assert Lower(Lower(name)) == Lower(name);
  }

  /** A listing of `names` has exactly as many entries as `names` has elements. */
  lemma {:induction false} ListingSize(s: seq<Name>, names: set<Name>)
    requires IsListingOf(s, names)
    ensures |s| == |names|
    decreases |s|
  {
    if s != [] {
      var last := s[|s| - 1];
      var init := s[..|s| - 1];
      assert forall x :: x in init <==> x in names - {last} by {
        forall x | x in init ensures x != last {
          var i :| 0 <= i < |init| && init[i] == x;
          assert s[i] == x;
        }
        forall x | x in names - {last} ensures x in init {
          assert x in s;
          var i :| 0 <= i < |s| && s[i] == x;
          assert i != |s| - 1;
          assert init[i] == x;
        }
      }
      ListingSize(init, names - {last});
    }
  }

  /** Filtering a listing of `names` lists exactly the names with an extension. */
  lemma KeptListing(s: seq<Name>, names: set<Name>, extensions: seq<string>)
    requires IsListingOf(s, names)
    ensures IsListingOf(KeepWithExtension(s, extensions), WithExtension(names, extensions))
    ensures |KeepWithExtension(s, extensions)| == |WithExtension(names, extensions)|
  {
    var kept := KeepWithExtension(s, extensions);
    ListingSize(kept, WithExtension(names, extensions));
  }
}
