# SharePoint access layer: a Dafny model

This project models the logic of `SharepointClientAccess` and `SharepointAPI` in
`sig_sharepoint_app/sharepoint_api.py`. That code is a thin layer over the
office365 SDK. It connects to a SharePoint site and finds, creates and deletes
document libraries and folders. It also turns file URLs into server-relative
paths and chooses what an upload sends. The remote site is replaced by an
immutable in-memory store: a sequence of document libraries, each with a
title, a description and the names of the folders in its root folder. The
SDK's `filter("Title eq '…'")` queries become exact string equality, and
adding an item appends it to the end of the sequence.

The outcomes of three remote calls are inputs of type `Outcome`: the two
confirming requests of the constructor and the upload. An `Outcome` is `Done`,
or `Fails` with either `SharepointError` or `ForeignError`. The code catches
only its own `SharepointError`, so each `except` clause around these calls is
modelled the same way: a `SharepointError` becomes a none (or fallback)
result, and anything else escapes as an `Err`. The other remote calls (the
lookup queries, the listing, adding and deleting) always reach the store; see
"Left out". Python exceptions that escape are `Err` values of
`Results.Error`:
- `KeyError` for a missing key in the secrets file;
- `AttributeError` for `.root_folder` read from `None`;
- `EmptySeparator` for `str.split("")`;
- `MissingCredentials` for the bare `Exception` raised at line 34.

Modules:
- `Results`: option, result, remote outcome and error types.
- `Strings`: the Python string operations the code relies on. These are `in`,
  `str.split`, POSIX `os.path.basename` and ASCII-only `str.lower`.
- `Credentials`: credential selection.
- `ClientAccess`: construction, the two confirming requests, and `from_url`.
- `Libraries`: the store, single-match-or-none lookups, find-or-create,
  delete, and the library listing.
- `Transfer`: `get_file`'s path extraction and `upload_file`.

Behaviour of the code worth noting:
- `upload_file` without an existing path or non-empty content raises a
  `SharepointError`, which its own `except` catches. The call returns `None`.
- `find_folder` on a library title that does not resolve raises
  `AttributeError`. It does not return none. The error also escapes
  `create_folder` and `upload_file`, because neither catches it.
- A secrets file without an entry for the site raises `KeyError`.
- `from_url` calls the constructor inside its `try`. So a `SharepointError`
  from the parsed site's construction also falls back to the default site.
- `get_file` uses Python's `split`, which scans left to right without overlap.
  For a separator that overlaps itself, the result is not "the suffix after
  the last occurrence". For example, `"aaa".split("aa")[-1]` is `"a"`.

## Model

| member | source | states |
|---|---|---|
| Credentials.Lookup | sig_sharepoint_app/sharepoint_api.py:30-31 | `data["sites"][site][field]` succeeds exactly when every key is present and then yields the stored value; otherwise it is a `KeyError` naming the first missing key: `sites`, then the site, then the field |
| Credentials.Resolve | sig_sharepoint_app/sharepoint_api.py:27-37 | with a credentials path the file's username and password for the site are used (error exactly when a key is missing, always a `KeyError`: the username is read first, so its lookup error wins, and the password's error escapes only when the username is present); without one, construction fails with the missing-credentials error exactly when id or secret is empty, otherwise the explicit values are used unchanged |
| Credentials.FileOverridesExplicitValues | sig_sharepoint_app/sharepoint_api.py:27-31 | when a credentials path is given, the explicit id and secret have no influence on the outcome |
| Credentials.FileValuesNotChecked | sig_sharepoint_app/sharepoint_api.py:27-33 | values read from the file are not checked for emptiness: empty username and password are accepted |
| Credentials.MissingSiteEntryIsKeyError | sig_sharepoint_app/sharepoint_api.py:30 | a secrets file without an entry for the site raises `KeyError(site)`, whatever explicit values are given |
| ClientAccess.CompleteUrl | sig_sharepoint_app/sharepoint_api.py:26 | the complete URL starts with the server URL and ends with the site, with the seven characters of `/sites/` between them; `CompleteUrlDeterminesSite` names those characters |
| ClientAccess.CompleteUrlDeterminesSite | sig_sharepoint_app/sharepoint_api.py:26 | the complete URL is the server URL, then `/sites/`, then the site, so given the server it determines the site |
| ClientAccess.ConfirmSession | sig_sharepoint_app/sharepoint_api.py:52-62 | the session is confirmed exactly when the web request succeeds and the site request did not raise a foreign error; any web failure propagates as raised |
| ClientAccess.Connect | sig_sharepoint_app/sharepoint_api.py:23-50 | construction succeeds exactly when credential selection and confirmation both succeed; the client keeps site and server unchanged, its complete URL is `server_url + "/sites/" + site`, and it holds the selected credentials; a credential error escapes as it is, and otherwise a failed confirmation escapes with the error of the failing request |
| ClientAccess.SecondaryFailureSwallowed | sig_sharepoint_app/sharepoint_api.py:57-60 | a `SharepointError` from the site request gives the same result as a successful one |
| ClientAccess.FromUrl | sig_sharepoint_app/sharepoint_api.py:111-133 | an unmatched URL yields the client for the default site and server; any client produced uses the settings' id and secret and is either for the parsed pair or the default pair; for a matched URL, a `SharepointError` from the parsed site's construction gives the default site's construction outcome and any other outcome is returned as it is; a matched URL whose construction succeeds yields the parsed pair |
| ClientAccess.ParsedSiteFailureFallsBack | sig_sharepoint_app/sharepoint_api.py:111-128 | a matched URL whose web request raises `SharepointError` yields a client for the default site instead of an error |
| Strings.FirstIndex | sig_sharepoint_app/sharepoint_api.py:267 | a reported index is an occurrence of the substring (Python's substring search) |
| Strings.FirstIndexFinds | sig_sharepoint_app/sharepoint_api.py:267 | the reported occurrence has no earlier one, and none is reported exactly when the substring occurs nowhere |
| Strings.Split | sig_sharepoint_app/sharepoint_api.py:77 | `str.split` with a non-empty separator gives at least one piece; `SplitPieces`, `SplitScansLeftToRight` and `SplitJoinRoundTrip` pin the pieces |
| Strings.SplitPieces | sig_sharepoint_app/sharepoint_api.py:77 | `str.split` with a non-empty separator cuts more than once exactly when the separator occurs, makes its first cut at the first occurrence, and leaves no piece containing the separator |
| Strings.SplitScansLeftToRight | sig_sharepoint_app/sharepoint_api.py:77 | every cut but the last is at the first occurrence of the separator in what remains of the string, the left-to-right non-overlapping scan of `str.split` |
| Strings.SplitJoinRoundTrip | sig_sharepoint_app/sharepoint_api.py:77 | joining the pieces of a split with the separator gives back the original string |
| Strings.LastPiece | sig_sharepoint_app/sharepoint_api.py:77 | the `[-1]` of `split(sep)`, the last piece; its contract is stated by `LastPieceOfRemainder`, `LastPieceIsSuffix` and `LastPieceFollowsSeparator` |
| Strings.LastPieceOfRemainder | sig_sharepoint_app/sharepoint_api.py:77 | past the first occurrence of the separator, `split(sep)[-1]` is that of the rest of the string |
| Strings.LastPieceIsSuffix | sig_sharepoint_app/sharepoint_api.py:77 | `split(sep)[-1]` is a suffix of the string, and the whole string when the separator is absent |
| Strings.LastPieceFollowsSeparator | sig_sharepoint_app/sharepoint_api.py:77 | when the separator occurs, `split(sep)[-1]` is directly preceded by an occurrence of it |
| Strings.ContainsIgnoringCase | sig_sharepoint_app/sharepoint_api.py:267 | `name.lower() in title.lower()` holds exactly when the lowered name occurs somewhere in the lowered title |
| Strings.Basename | sig_sharepoint_app/sharepoint_api.py:190 | the base name is the longest suffix of the path without `/`: a suffix, free of `/`, and preceded by `/` unless it is the whole path |
| Transfer.GetFilePath | sig_sharepoint_app/sharepoint_api.py:77 | an empty server URL raises `ValueError`; otherwise the path is a suffix of the file URL that does not contain the server URL, is the whole URL when the server URL does not occur, and otherwise directly follows an occurrence of it |
| Transfer.GetFilePathSkipsFirstOccurrence | sig_sharepoint_app/sharepoint_api.py:77 | past the first occurrence of the server URL, the path is the path of the rest of the URL, so the scan is left to right |
| Transfer.OverlappingServerUrl | sig_sharepoint_app/sharepoint_api.py:77 | with server URL `"aa"`, the path of `"aaa"` is `"a"`, as Python's non-overlapping scan gives, not the empty text after the last occurrence |
| Transfer.SelectUploadInput | sig_sharepoint_app/sharepoint_api.py:188-194 | an existing local path supplies the bytes, replacing any given content, and a given name or else the path's base name; without it there is input exactly when non-empty content is given, and then it is that content with the given name |
| Transfer.UploadFile | sig_sharepoint_app/sharepoint_api.py:186-205 | without input the site is unchanged and the result is none (no folder created, nothing uploaded); an unresolved library escapes as `AttributeError` with the site unchanged; otherwise the target folder is found or created, a `SharepointError` from the upload gives none, another error escapes, and an uploaded file carries the selected name and bytes and goes into the folder `create_folder` returns, which is named `root_folder` in that library |
| Transfer.ExistingFileIgnoresContent | sig_sharepoint_app/sharepoint_api.py:188-192 | when the local path exists, the supplied content does not influence the upload |
| Transfer.RepeatedUploadCreatesFolderOnce | sig_sharepoint_app/sharepoint_api.py:197 | two uploads into a folder that did not exist create exactly one folder; since uploaded files are not recorded in the store, the second leaves the store as the first left it |
| Libraries.IndicesOf | sig_sharepoint_app/sharepoint_api.py:293 | an exact-match query yields every position holding the name and only those, as many as the name occurs, in increasing order |
| Libraries.UniqueIndex | sig_sharepoint_app/sharepoint_api.py:294 | a position is returned exactly when the name occurs once, and it is the only position holding the name |
| Libraries.LibraryFromName | sig_sharepoint_app/sharepoint_api.py:293-294 | a library is returned exactly when one library has the title, and it is that library; zero or several matches give none |
| Libraries.FindFolder | sig_sharepoint_app/sharepoint_api.py:145-153 | an unresolved library raises `AttributeError`; otherwise a folder is returned exactly when one folder of the library's root has the name, and it is that folder |
| Libraries.AddFolder | sig_sharepoint_app/sharepoint_api.py:169 | adding a folder appends its name to that library's root and changes no other library and no title |
| Libraries.CreateFolder | sig_sharepoint_app/sharepoint_api.py:165-172 | fails exactly when the library does not resolve; returns a folder with the name in that library; leaves the site unchanged and returns the existing folder when the folder is unique; otherwise, ambiguous names included, appends one folder with the name to that library and returns the new one |
| Libraries.CreateFolderIdempotent | sig_sharepoint_app/sharepoint_api.py:165-172 | a folder created where none existed is then found, and a second `create_folder` returns it with the site unchanged |
| Libraries.CreateFolderAmbiguousAddsDuplicate | sig_sharepoint_app/sharepoint_api.py:165-172 | when two or more folders already have the name, `create_folder` adds one more |
| Libraries.CreateLibrary | sig_sharepoint_app/sharepoint_api.py:303-309 | returns a library with the title; leaves the site unchanged when the title is unique and otherwise appends a new empty library with that title and description, ambiguous titles included |
| Libraries.CreateLibraryIdempotent | sig_sharepoint_app/sharepoint_api.py:303-309 | a library created where none existed is then found, and a second call returns it with the site unchanged, whatever description it passes |
| Libraries.CreateLibraryAmbiguousAddsDuplicate | sig_sharepoint_app/sharepoint_api.py:303-309 | when two or more libraries already have the title, another one is added |
| Libraries.DeleteLibrary | sig_sharepoint_app/sharepoint_api.py:317-319 | with zero or several matching titles the site is unchanged; with exactly one, that library is removed: one fewer library, none left with the title, the rest kept in order |
| Libraries.DeleteUndoesCreate | sig_sharepoint_app/sharepoint_api.py:303-319 | deleting a library just created from nothing restores the site |
| Libraries.FilterKeepsExactlyMatching | sig_sharepoint_app/sharepoint_api.py:265-268 | the title filter is an order-preserving subsequence that keeps every matching library as often as it occurs and no other |
| Libraries.FilterStep | sig_sharepoint_app/sharepoint_api.py:265-268 | one more library extends the filter by that library exactly when its title contains the name ignoring case |
| Libraries.EmptyNameMatchesAll | sig_sharepoint_app/sharepoint_api.py:266-271 | with an empty name every title matches, so returning the whole list agrees with the filter |
| Libraries.ListLibraries | sig_sharepoint_app/sharepoint_api.py:262-272 | an empty name returns the full list; otherwise the result is the title filter; in both cases it is a subsequence of the libraries holding exactly the matching ones with their multiplicities |
| Libraries.ListingExample | sig_sharepoint_app/sharepoint_api.py:262-272 | listing with "doc" over "Documents", "Archive", "Docusign" gives "Documents" then "Docusign" |

## Left out

- Every office365 SDK call (`ClientContext`, `execute_query`, `filter`, `add`, `delete_object`, `upload_file`, `create_upload_session`, `download`) is foreign code that is not part of this model. The store stands in for the site, and the outcomes of the confirming requests and of the upload are inputs.
- Failures of the SDK's `add`, `delete_object` and list enumeration (line 264) are not modelled. In the model, creating, deleting and listing always reach the store.
- Failures of the lookup queries are not modelled: the library lookup (line 293) and the folder lookup (lines 146-151) always answer from the store. A failing lookup would raise out of `find_folder`, `create_folder`, `create_document_library` and `delete_document_library`; inside `upload_file` a `SharepointError` would be caught and give `None`, and any other error would escape.
- Uploaded files are not recorded in the store, which holds only libraries and folder names. An upload result names the folder and carries the file, but the store after an upload differs from the one before only by a created folder. So repeated uploads leave the store as the first left it, even though the real site would hold the file.
- `download_file` (lines 81-98) writes a local file and fetches remote bytes. It is local I/O plus remote calls. Its path extraction is `get_file`'s, modelled by `Transfer.GetFilePath`.
- `upload_large_file` (lines 207-232) is a chunked SDK upload with a printed progress percentage. It is floating-point formatting and remote calls only.
- `get_list_of_files` (lines 234-250) and `get_ctx_document_libraries` (lines 276-282) are direct SDK pass-throughs with no decisions of their own.
- The URL pattern used by `from_url` is defined in a module that is not part of this model. The match result is an input of `ClientAccess.FromUrl`, and a `re.error` is not modelled.
- Reading and parsing the secrets file (lines 28-29) is I/O. Its parsed content is an input, and a missing file or malformed JSON is not modelled.
- Reading local files (lines 188-192) is I/O. The local disk is a map from path to bytes holding regular files only, so a directory path is not modelled.
- OData filter strings (lines 147, 293) are exact-match predicates. The model ignores unescaped quotes in names and the service's own comparison rules.
- A folder name containing `/`, which the service would treat as nested folders, is modelled as a plain name.
- `os.path` is taken to be POSIX (`posixpath`): Windows backslash separators and drive letters in `os.path.basename` are not modelled.
- `str.lower` lowers ASCII letters only. Unicode case mapping is not modelled.
- Logging, Django settings (passed in as `ClientAccess.Settings`) and the definition of `SharepointError` are not part of this model. Library and folder objects are assumed truthy, as SDK objects are.
