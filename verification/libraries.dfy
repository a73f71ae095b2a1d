/** Document libraries and their root folders (sig_sharepoint_app/sharepoint_api.py,
    lines 135-172 and 252-319), over an in-memory stand-in for the remote site.

    The site is a sequence of libraries, each with a title, a description and
    the names of the folders in its root folder. The SDK's `filter("X eq '..'")`
    query becomes exact string equality; adding an item appends it.
 */
module Libraries {
  import opened Results
  import opened Strings

  datatype Library = Library(title: string, description: string, folders: seq<string>)

  /** The document libraries of the site, in the order the service lists them. */
  type Store = seq<Library>

  /** A folder in the root folder of library number `library`. */
  datatype FolderRef = FolderRef(library: nat, index: nat)

  /** The result of a find-or-create of a folder: the updated site and the folder. */
  datatype FolderCreated = FolderCreated(store: Store, folder: FolderRef)

  /** The result of a find-or-create of a library: the updated site and the library. */
  datatype LibraryCreated = LibraryCreated(store: Store, library: nat)

  function Titles(store: Store): (titles: seq<string>)
    ensures |titles| == |store|
    ensures forall i :: 0 <= i < |store| ==> titles[i] == store[i].title
  {
    seq(|store|, i requires 0 <= i < |store| => store[i].title)
  }

  /** How many libraries carry exactly this title. */
  function TitleCount(store: Store, title: string): nat
  {
    multiset(Titles(store))[title]
  }

  /** How many folders of library `i` carry exactly this name. */
  function FolderCount(store: Store, i: nat, name: string): nat
    requires i < |store|
  {
    multiset(store[i].folders)[name]
  }

  /** `m` lists the positions of `name` in `names`, each once, in
      increasing order. */
  predicate ListsPositions(names: seq<string>, name: string, m: seq<nat>)
  {
    && |m| == multiset(names)[name]
    && (forall k :: 0 <= k < |m| ==> m[k] < |names| && names[m[k]] == name)
    && (forall i :: 0 <= i < |names| && names[i] == name ==> i in m)
    && (forall k, l :: 0 <= k < l < |m| ==> m[k] < m[l])
  }

  /** The positions of `name` in `names`: the result of an exact-match
      filter query. */
  function IndicesOf(names: seq<string>, name: string): (m: seq<nat>)
    ensures ListsPositions(names, name, m)
    decreases |names|
  {
    if |names| == 0 then []
    else
      var n := |names| - 1;
      var m := IndicesOf(names[..n], name);
      PositionsExtend(names, name, m);
      if names[n] == name then m + [n] else m
  }

  /** Positions listed for all but the last name extend to all names: the
      last position joins the list exactly when the last name matches. */
  lemma PositionsExtend(names: seq<string>, name: string, m: seq<nat>)
    requires |names| > 0
    requires ListsPositions(names[..|names| - 1], name, m)
    ensures ListsPositions(names, name, if names[|names| - 1] == name then m + [|names| - 1] else m)
  {
    var n := |names| - 1;
    assert names == names[..n] + [names[n]];
    assert multiset(names) == multiset(names[..n]) + multiset{names[n]};
    if names[n] == name {
      PositionsAppend(names, name, m);
    } else {
      PositionsSkip(names, name, m);
    }
  }

  lemma PositionsAppend(names: seq<string>, name: string, m: seq<nat>)
    requires |names| > 0 && names[|names| - 1] == name
    requires ListsPositions(names[..|names| - 1], name, m)
    requires |m| + 1 == multiset(names)[name]
    ensures ListsPositions(names, name, m + [|names| - 1])
  {
    var n := |names| - 1;
    var prefix := names[..n];
    var r := m + [n];
    forall k | 0 <= k < |r|
      ensures r[k] < |names| && names[r[k]] == name
    {
      if k < |m| {
        assert r[k] == m[k] && prefix[m[k]] == names[m[k]];
      }
    }
    forall i | 0 <= i < |names| && names[i] == name
      ensures i in r
    {
      if i < n {
        assert prefix[i] == names[i];
      } else {
        assert r[|r| - 1] == n;
      }
    }
    forall k, l | 0 <= k < l < |r|
      ensures r[k] < r[l]
    {
      assert r[k] == m[k];
    }
  }

  lemma PositionsSkip(names: seq<string>, name: string, m: seq<nat>)
    requires |names| > 0 && names[|names| - 1] != name
    requires ListsPositions(names[..|names| - 1], name, m)
    requires |m| == multiset(names)[name]
    ensures ListsPositions(names, name, m)
  {
    var n := |names| - 1;
    var prefix := names[..n];
    forall k | 0 <= k < |m|
      ensures m[k] < |names| && names[m[k]] == name
    {
      assert prefix[m[k]] == names[m[k]];
    }
    forall i | 0 <= i < |names| && names[i] == name
      ensures i in m
    {
      assert prefix[i] == names[i];
    }
  }

  /** `result[0] if len(result) == 1 else None` applied to an exact-match
      query: the position of `name` if it occurs exactly once. */
  function UniqueIndex(names: seq<string>, name: string): (r: Option<nat>)
    ensures r.Some? <==> multiset(names)[name] == 1
    ensures r.Some? ==> r.value < |names| && names[r.value] == name
    ensures r.Some? ==> forall j :: 0 <= j < |names| && names[j] == name ==> j == r.value
  {
    var m := IndicesOf(names, name);
    if |m| == 1 then Some(m[0]) else None
  }

  /** `get_document_library_from_name`: the library with this title if
      exactly one has it; none when no library or several have it. */
  function LibraryFromName(store: Store, title: string): (r: Option<nat>)
    ensures r.Some? <==> TitleCount(store, title) == 1
    ensures r.Some? ==> r.value < |store| && store[r.value].title == title
    ensures r.Some? ==> forall j :: 0 <= j < |store| && store[j].title == title ==> j == r.value
  {
    UniqueIndex(Titles(store), title)
  }

  /** `find_folder`: the folder of that name in the library's root folder if
      exactly one has it, otherwise none. When the library does not resolve,
      `.root_folder` is read from `None`, which raises `AttributeError`. */
  function FindFolder(store: Store, libraryTitle: string, folderName: string): (r: Result<Option<FolderRef>>)
    ensures r.Err? <==> TitleCount(store, libraryTitle) != 1
    ensures r.Err? ==> r.error == AttributeError("root_folder")
    ensures r.Ok? ==> var i := LibraryFromName(store, libraryTitle).value;
                      (r.value.Some? <==> FolderCount(store, i, folderName) == 1)
    ensures r.Ok? && r.value.Some? ==>
              var f := r.value.value;
              && f.library < |store| && store[f.library].title == libraryTitle
              && f.index < |store[f.library].folders|
              && store[f.library].folders[f.index] == folderName
  {
    match LibraryFromName(store, libraryTitle)
    case None => Err(AttributeError("root_folder"))
    case Some(i) =>
      match UniqueIndex(store[i].folders, folderName)
      case None => Ok(None)
      case Some(k) => Ok(Some(FolderRef(i, k)))
  }

  /** The site after `folders.add(name)` on the root folder of library `i`. */
  function AddFolder(store: Store, i: nat, name: string): (s: Store)
    requires i < |store|
    ensures |s| == |store| && Titles(s) == Titles(store)
    ensures s[i].folders == store[i].folders + [name]
    ensures s[i].title == store[i].title && s[i].description == store[i].description
    ensures forall j :: 0 <= j < |store| && j != i ==> s[j] == store[j]
  {
    var s := store[i := store[i].(folders := store[i].folders + [name])];
    assert Titles(s) == Titles(store);
    s
  }

  /** `create_folder`: find-or-create. An existing unique folder is returned
      and the site is left alone; otherwise, including when the name is
      already ambiguous, one more folder of that name is added. An
      unresolved library raises `AttributeError` before anything changes. */
  function CreateFolder(store: Store, libraryTitle: string, folderName: string): (r: Result<FolderCreated>)
    ensures r.Err? <==> TitleCount(store, libraryTitle) != 1
    ensures r.Err? ==> r.error == AttributeError("root_folder")
    ensures r.Ok? ==>
              var i := LibraryFromName(store, libraryTitle).value;
              var c := r.value;
              && |c.store| == |store|
              && c.folder.library == i
              && c.folder.index < |c.store[i].folders|
              && c.store[i].folders[c.folder.index] == folderName
    ensures r.Ok? && FolderCount(store, LibraryFromName(store, libraryTitle).value, folderName) == 1 ==>
              r.value.store == store
    ensures r.Ok? && FolderCount(store, LibraryFromName(store, libraryTitle).value, folderName) != 1 ==>
              var i := LibraryFromName(store, libraryTitle).value;
              && r.value.store == AddFolder(store, i, folderName)
              && r.value.folder == FolderRef(i, |store[i].folders|)
  {
    match FindFolder(store, libraryTitle, folderName)
    case Err(e) => Err(e)
    case Ok(Some(f)) => Ok(FolderCreated(store, f))
    case Ok(None) =>
      var i := LibraryFromName(store, libraryTitle).value;
      var s := AddFolder(store, i, folderName);
      Ok(FolderCreated(s, FolderRef(i, |store[i].folders|)))
  }

  /** A folder created where none existed is found afterwards, and a second
      `create_folder` with the same names returns it without changing the site. */
  lemma CreateFolderIdempotent(store: Store, libraryTitle: string, folderName: string)
    requires TitleCount(store, libraryTitle) == 1
    requires FolderCount(store, LibraryFromName(store, libraryTitle).value, folderName) == 0
    ensures CreateFolder(store, libraryTitle, folderName).Ok?
    ensures var c := CreateFolder(store, libraryTitle, folderName).value;
            && FindFolder(c.store, libraryTitle, folderName) == Ok(Some(c.folder))
            && CreateFolder(c.store, libraryTitle, folderName) == Ok(c)
  {
  }

  /** When the folder name is already ambiguous, `create_folder` adds yet
      another folder of that name. */
  lemma CreateFolderAmbiguousAddsDuplicate(store: Store, libraryTitle: string, folderName: string)
    requires TitleCount(store, libraryTitle) == 1
    requires FolderCount(store, LibraryFromName(store, libraryTitle).value, folderName) >= 2
    ensures CreateFolder(store, libraryTitle, folderName).Ok?
    ensures var i := LibraryFromName(store, libraryTitle).value;
            var c := CreateFolder(store, libraryTitle, folderName).value;
            FolderCount(c.store, i, folderName) == FolderCount(store, i, folderName) + 1
  {
  }

  /** `create_document_library`: find-or-create. An existing unique library
      is returned and the site is left alone (the description is ignored);
      otherwise, including when the title is already ambiguous, a new empty
      library with that title and description is appended. */
  function CreateLibrary(store: Store, title: string, description: string): (r: LibraryCreated)
    ensures r.library < |r.store| && r.store[r.library].title == title
    ensures TitleCount(store, title) == 1 ==> r.store == store
    ensures TitleCount(store, title) != 1 ==>
              r.store == store + [Library(title, description, [])] && r.library == |store|
  {
    match LibraryFromName(store, title)
    case Some(i) => LibraryCreated(store, i)
    case None => LibraryCreated(store + [Library(title, description, [])], |store|)
  }

  /** Appending a library appends its title. */
  lemma TitlesAppend(store: Store, lib: Library)
    ensures Titles(store + [lib]) == Titles(store) + [lib.title]
  {
  }

  /** A library created where none existed is the one a second
      `create_document_library` returns, with the site unchanged. */
  lemma CreateLibraryIdempotent(store: Store, title: string, description: string, description2: string)
    requires TitleCount(store, title) == 0
    ensures var c := CreateLibrary(store, title, description);
            && LibraryFromName(c.store, title) == Some(c.library)
            && CreateLibrary(c.store, title, description2) == c
  {
  }

  /** When the title is already ambiguous, `create_document_library` adds
      yet another library with that title. */
  lemma CreateLibraryAmbiguousAddsDuplicate(store: Store, title: string, description: string)
    requires TitleCount(store, title) >= 2
    ensures TitleCount(CreateLibrary(store, title, description).store, title) == TitleCount(store, title) + 1
  {
    TitlesAppend(store, Library(title, description, []));
  }

  /** `a` is `b` with some elements left out, order preserved. */
  predicate IsSubsequence<T(==)>(a: seq<T>, b: seq<T>)
    decreases |b|
  {
    || |a| == 0
    || (&& |b| > 0
        && (|| (a[|a| - 1] == b[|b| - 1] && IsSubsequence(a[..|a| - 1], b[..|b| - 1]))
            || IsSubsequence(a, b[..|b| - 1])))
  }

  lemma {:induction false} SubsequenceReflexive<T>(s: seq<T>)
    ensures IsSubsequence(s, s)
    decreases |s|
  {
    if |s| > 0 {
      SubsequenceReflexive(s[..|s| - 1]);
    }
  }

  /** Leaving out one element gives a subsequence. */
  lemma {:induction false} RemovalIsSubsequence<T>(s: seq<T>, i: nat)
    requires i < |s|
    ensures IsSubsequence(s[..i] + s[i + 1..], s)
    decreases |s|
  {
    var a := s[..i] + s[i + 1..];
    var n := |s| - 1;
    if i == n {
      assert a == s[..n];
      SubsequenceReflexive(s[..n]);
    } else {
      RemovalIsSubsequence(s[..n], i);
      assert a[|a| - 1] == s[n];
      assert a[..|a| - 1] == s[..n][..i] + s[..n][i + 1..];
    }
  }

  /** `delete_document_library`: removes the library only when exactly one
      has the title; an absent or ambiguous title leaves the site unchanged. */
  function DeleteLibrary(store: Store, title: string): (r: Store)
    ensures TitleCount(store, title) != 1 ==> r == store
    ensures TitleCount(store, title) == 1 ==>
              && |r| == |store| - 1
              && TitleCount(r, title) == 0
              && IsSubsequence(r, store)
              && forall lib :: lib in store && lib.title != title ==> lib in r
  {
    match LibraryFromName(store, title)
    case None => store
    case Some(i) =>
      RemovalIsSubsequence(store, i);
      RemovalKeepsOthers(store, i);
      store[..i] + store[i + 1..]
  }

  /** Removing library `i` takes one occurrence of its title away and keeps
      every library that differs from it. */
  lemma RemovalKeepsOthers(store: Store, i: nat)
    requires i < |store|
    ensures multiset(Titles(store[..i] + store[i + 1..])) + multiset{store[i].title} == multiset(Titles(store))
    ensures forall lib :: lib in store && lib != store[i] ==> lib in store[..i] + store[i + 1..]
  {
    RemovalTitles(store, i);
    forall lib | lib in store && lib != store[i]
      ensures lib in store[..i] + store[i + 1..]
    {
      var j :| 0 <= j < |store| && store[j] == lib;
      if j < i {
        assert store[..i][j] == lib;
      } else {
        assert store[i + 1..][j - i - 1] == lib;
      }
    }
  }

  lemma RemovalTitles(store: Store, i: nat)
    requires i < |store|
    ensures multiset(Titles(store[..i] + store[i + 1..])) + multiset{store[i].title} == multiset(Titles(store))
  {
    var front, back := store[..i], store[i + 1..];
    assert store == front + [store[i]] + back;
    TitlesConcat(front, [store[i]]);
    TitlesConcat(front + [store[i]], back);
    TitlesConcat(front, back);
  }

  lemma TitlesConcat(a: Store, b: Store)
    ensures Titles(a + b) == Titles(a) + Titles(b)
  {
  }

  /** Deleting a library that `create_document_library` has just created
      from nothing restores the site. */
  lemma DeleteUndoesCreate(store: Store, title: string, description: string)
    requires TitleCount(store, title) == 0
    ensures DeleteLibrary(CreateLibrary(store, title, description).store, title) == store
  {
  }

  /** The listing filter: the title contains the name, ignoring ASCII case. */
  predicate TitleMatches(lib: Library, name: string)
  {
    ContainsIgnoringCase(lib.title, name)
  }

  /** The libraries whose title matches, in their original order. */
  function FilterByTitle(store: Store, name: string): Store
    decreases |store|
  {
    if |store| == 0 then []
    else
      var n := |store| - 1;
      FilterByTitle(store[..n], name) + (if TitleMatches(store[n], name) then [store[n]] else [])
  }

  /** The filter keeps exactly the matching libraries, each as often as it
      occurs, in their original order. */
  lemma {:induction false} FilterKeepsExactlyMatching(store: Store, name: string)
    ensures IsSubsequence(FilterByTitle(store, name), store)
    ensures forall lib :: multiset(FilterByTitle(store, name))[lib]
                          == if TitleMatches(lib, name) then multiset(store)[lib] else 0
  {
    FilterIsSubsequence(store, name);
    FilterMultiplicities(store, name);
  }

  lemma {:induction false} FilterIsSubsequence(store: Store, name: string)
    ensures IsSubsequence(FilterByTitle(store, name), store)
    decreases |store|
  {
    if |store| > 0 {
      var n := |store| - 1;
      var r := FilterByTitle(store, name);
      var r' := FilterByTitle(store[..n], name);
      FilterIsSubsequence(store[..n], name);
      if TitleMatches(store[n], name) {
        assert r == r' + [store[n]];
        assert r[|r| - 1] == store[n] && r[..|r| - 1] == r';
      } else {
        assert r == r';
        if |r| > 0 {
          assert IsSubsequence(r, store[..n]);
        }
      }
    }
  }

  lemma FilterMultiplicities(store: Store, name: string)
    ensures forall lib :: multiset(FilterByTitle(store, name))[lib]
                          == if TitleMatches(lib, name) then multiset(store)[lib] else 0
  {
    forall lib
      ensures multiset(FilterByTitle(store, name))[lib]
              == if TitleMatches(lib, name) then multiset(store)[lib] else 0
    {
      FilterMultiplicity(store, name, lib);
    }
  }

  lemma {:induction false} FilterMultiplicity(store: Store, name: string, lib: Library)
    ensures multiset(FilterByTitle(store, name))[lib]
            == if TitleMatches(lib, name) then multiset(store)[lib] else 0
    decreases |store|
  {
    if |store| > 0 {
      var n := |store| - 1;
      var r := FilterByTitle(store, name);
      var r' := FilterByTitle(store[..n], name);
      FilterMultiplicity(store[..n], name, lib);
      assert store == store[..n] + [store[n]];
      if TitleMatches(store[n], name) {
        assert r == r' + [store[n]];
      } else {
        assert r == r';
      }
    }
  }

  /** With an empty name every title matches, so the source's shortcut of
      returning the whole list agrees with the filter. */
  lemma {:induction false} EmptyNameMatchesAll(store: Store)
    ensures FilterByTitle(store, "") == store
    decreases |store|
  {
    if |store| > 0 {
      var n := |store| - 1;
      EmptyNameMatchesAll(store[..n]);
      EmptyIsContained(store[n].title);
      assert store == store[..n] + [store[n]];
    }
  }

  /** `get_list_of_folders` (which lists libraries): every library for an
      empty name, otherwise the libraries whose title contains the name
      ignoring case, in order. */
  method ListLibraries(store: Store, name: string) returns (r: Store)
    ensures name == "" ==> r == store
    ensures name != "" ==> r == FilterByTitle(store, name)
    ensures IsSubsequence(r, store)
    ensures forall lib :: multiset(r)[lib] == if TitleMatches(lib, name) then multiset(store)[lib] else 0
  {
    r := [];
    var i := 0;
    while i < |store|
      invariant 0 <= i <= |store|
      invariant name != "" ==> r == FilterByTitle(store[..i], name)
      invariant name == "" ==> i == 0 && r == []
    {
      if name != "" {
        FilterStep(store, name, i);
        if TitleMatches(store[i], name) {
          r := r + [store[i]];
        }
        i := i + 1;
      } else {
        r := store;
        break;
      }
    }
    assert store[..|store|] == store;
    assert r == if name == "" then store else FilterByTitle(store, name);
    ListingProperties(store, name);
  }

  /** The filter of one more library extends the filter of the ones before. */
  lemma FilterStep(store: Store, name: string, i: nat)
    requires i < |store|
    ensures FilterByTitle(store[..i + 1], name)
            == FilterByTitle(store[..i], name) + (if TitleMatches(store[i], name) then [store[i]] else [])
  {
    assert store[..i + 1][..i] == store[..i];
  }

  /** The properties of the listing, stated of the shortcut-or-filter
      definition the loop computes. */
  lemma ListingProperties(store: Store, name: string)
    ensures var r := if name == "" then store else FilterByTitle(store, name);
            && IsSubsequence(r, store)
            && forall lib :: multiset(r)[lib] == if TitleMatches(lib, name) then multiset(store)[lib] else 0
  {
    EmptyNameMatchesAll(store);
    FilterKeepsExactlyMatching(store, name);
  }

  /** A title starting with "Doc" matches the name "doc". */
  lemma DocPrefixMatches(lib: Library)
    requires |lib.title| >= 3 && lib.title[..3] == "Doc"
    ensures TitleMatches(lib, "doc")
  {
  }

  lemma ArchiveDoesNotMatch()
    ensures !TitleMatches(Library("Archive", "", []), "doc")
  {
    assert Lower("doc") == "doc";
    assert Lower("Archive") == "archive";
    forall j: nat ensures !OccursAt("archive", "doc", j) {
      if j + 3 <= 7 {
        assert 'd' !in "archive";
        assert "archive"[j..j + 3][0] == "archive"[j];
      }
    }
  }

  /** Listing with "doc" over the libraries "Documents", "Archive" and
      "Docusign" gives "Documents" and "Docusign", in that order. */
  lemma ListingExample()
    ensures var docs := Library("Documents", "", []);
            var archive := Library("Archive", "", []);
            var docusign := Library("Docusign", "", []);
            FilterByTitle([docs, archive, docusign], "doc") == [docs, docusign]
  {
    var docs := Library("Documents", "", []);
    var archive := Library("Archive", "", []);
    var docusign := Library("Docusign", "", []);
    DocPrefixMatches(docs);
    DocPrefixMatches(docusign);
    ArchiveDoesNotMatch();
    var all := [docs, archive, docusign];
    assert all[..2] == [docs, archive];
    assert all[..2][..1] == [docs];
    assert [docs][..0] == [];
    assert FilterByTitle([docs], "doc") == [docs];
    assert FilterByTitle(all[..2], "doc") == [docs];
  }
}
