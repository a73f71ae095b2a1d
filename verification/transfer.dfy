/** File access of `SharepointAPI` (sig_sharepoint_app/sharepoint_api.py,
    lines 69-79 and 174-205): the server-relative path of `get_file` and the
    decisions `upload_file` takes before and around its remote calls.

    The local file system is a map from path to contents; the upload call
    itself is a remote call whose outcome is an input.
 */
module Transfer {
  import opened Results
  import opened Strings
  import opened Libraries
  import opened ClientAccess

  newtype byte = x: int | 0 <= x < 256

  type Bytes = seq<byte>

  /** The regular files on the local disk. `os.path.exists("")` is false, so
      no file has the empty path. */
  type LocalFiles = files: map<string, Bytes> | "" !in files witness map[]

  /** The name and the bytes an upload sends. */
  datatype UploadInput = UploadInput(name: string, content: Bytes)

  /** A file uploaded into a folder of the site. */
  datatype UploadedFile = UploadedFile(folder: FolderRef, name: string, content: Bytes)

  /** The site after an upload attempt (a folder may have been created even
      when the upload then fails) and what `upload_file` returned or raised. */
  datatype UploadOutcome = UploadOutcome(store: Store, result: Result<Option<UploadedFile>>)

  /** `get_file`'s `file_url.split(server_url)[-1]`: the part of the URL after
      the last separator occurrence found scanning left to right. Splitting
      on an empty server URL raises `ValueError`. */
  function GetFilePath(client: Client, fileUrl: string): (r: Result<string>)
    ensures r.Err? <==> client.serverUrl == ""
    ensures r.Err? ==> r.error == EmptySeparator
    ensures r.Ok? ==> |r.value| <= |fileUrl| && fileUrl[|fileUrl| - |r.value|..] == r.value
    ensures r.Ok? ==> !Contains(r.value, client.serverUrl)
    ensures r.Ok? && !Contains(fileUrl, client.serverUrl) ==> r.value == fileUrl
    ensures r.Ok? && Contains(fileUrl, client.serverUrl) ==>
              && |r.value| + |client.serverUrl| <= |fileUrl|
              && OccursAt(fileUrl, client.serverUrl, |fileUrl| - |r.value| - |client.serverUrl|)
  {
    if client.serverUrl == "" then Err(EmptySeparator)
    else
      var sep := client.serverUrl;
      LastPieceIsSuffix(fileUrl, sep);
      LastPieceFollowsSeparator(fileUrl, sep);
      SplitPieces(fileUrl, sep);
      Ok(LastPiece(fileUrl, sep))
  }

  /** The first lines of `upload_file`: an existing local file supplies the
      bytes (replacing any given content) and, when no name is given, its
      base name; without a local file the given content must be non-empty,
      or the raised `SharepointError` is caught and nothing is uploaded. */
  function SelectUploadInput(files: LocalFiles, filePath: string, fileContent: Option<Bytes>,
                             fileName: string): (r: Option<UploadInput>)
    ensures filePath in files ==> r.Some? && r.value.content == files[filePath]
    ensures filePath in files && fileName != "" ==> r.value.name == fileName
    ensures filePath in files && fileName == "" ==>
              && |r.value.name| <= |filePath|
              && filePath[|filePath| - |r.value.name|..] == r.value.name
              && '/' !in r.value.name
              && (|r.value.name| < |filePath| ==> filePath[|filePath| - |r.value.name| - 1] == '/')
    ensures filePath !in files ==> (r.Some? <==> fileContent.Some? && |fileContent.value| > 0)
    ensures filePath !in files && r.Some? ==> r.value == UploadInput(fileName, fileContent.value)
  {
    if filePath in files then
      var base := Basename(filePath);
      Some(UploadInput(if fileName == "" then base else fileName, files[filePath]))
    else if fileContent.None? || |fileContent.value| == 0 then None
    else Some(UploadInput(fileName, fileContent.value))
  }

  /** `upload_file`: choose the input, find or create the target folder, then
      upload. Without input the site is untouched and the result is none. An
      unresolved library raises `AttributeError`, which is not caught. A
      `SharepointError` from the upload is caught (none), anything else
      escapes; the folder created before it stays. */
  function UploadFile(store: Store, files: LocalFiles, libraryTitle: string, rootFolder: string,
                      filePath: string, fileContent: Option<Bytes>, fileName: string,
                      upload: Outcome): (r: UploadOutcome)
    ensures SelectUploadInput(files, filePath, fileContent, fileName).None? ==>
              r == UploadOutcome(store, Ok(None))
    ensures SelectUploadInput(files, filePath, fileContent, fileName).Some? && TitleCount(store, libraryTitle) != 1 ==>
              r == UploadOutcome(store, Err(AttributeError("root_folder")))
    ensures SelectUploadInput(files, filePath, fileContent, fileName).Some? && TitleCount(store, libraryTitle) == 1 ==>
              && r.store == CreateFolder(store, libraryTitle, rootFolder).value.store
              && (upload == Fails(SharepointError) ==> r.result == Ok(None))
              && (upload == Fails(ForeignError) ==> r.result == Err(Propagated(ForeignError)))
              && (upload == Done ==> r.result.Ok? && r.result.value.Some?)
    ensures r.result.Ok? && r.result.value.Some? ==>
              var f := r.result.value.value;
              var input := SelectUploadInput(files, filePath, fileContent, fileName);
              && input.Some? && f.name == input.value.name && f.content == input.value.content
              && f.folder == CreateFolder(store, libraryTitle, rootFolder).value.folder
              && f.folder.library < |r.store| && r.store[f.folder.library].title == libraryTitle
              && f.folder.index < |r.store[f.folder.library].folders|
              && r.store[f.folder.library].folders[f.folder.index] == rootFolder
  {
    match SelectUploadInput(files, filePath, fileContent, fileName)
    case None => UploadOutcome(store, Ok(None))
    case Some(input) =>
      match CreateFolder(store, libraryTitle, rootFolder)
      case Err(e) => UploadOutcome(store, Err(e))
      case Ok(created) =>
        match upload
        case Done => UploadOutcome(created.store, Ok(Some(UploadedFile(created.folder, input.name, input.content))))
        case Fails(SharepointError) => UploadOutcome(created.store, Ok(None))
        case Fails(ForeignError) => UploadOutcome(created.store, Err(Propagated(ForeignError)))
  }

  /** The path is found by Python's left-to-right scan: past the first
      occurrence of the server URL, the path is that of the rest of the URL. */
  lemma GetFilePathSkipsFirstOccurrence(client: Client, fileUrl: string, i: nat)
    requires client.serverUrl != "" && FirstIndex(fileUrl, client.serverUrl) == Some(i)
    ensures GetFilePath(client, fileUrl) == GetFilePath(client, fileUrl[i + |client.serverUrl|..])
  {
    var sep := client.serverUrl;
    var rest := fileUrl[i + |sep|..];
    LastPieceOfRemainder(fileUrl, sep, i);
    GetFilePathIsLastPiece(client, fileUrl);
    GetFilePathIsLastPiece(client, rest);
  }

  lemma GetFilePathIsLastPiece(client: Client, fileUrl: string)
    requires client.serverUrl != ""
    ensures GetFilePath(client, fileUrl) == Ok(LastPiece(fileUrl, client.serverUrl))
  {
  }

  /** The scan is Python's: with a separator that overlaps itself the
      path is what follows the first cut, not the last occurrence. */
  lemma OverlappingServerUrl(client: Client)
    requires client.serverUrl == "aa"
    ensures GetFilePath(client, "aaa") == Ok("a")
  {
    assert OccursAt("aaa", "aa", 0);
    assert FirstIndex("aaa", "aa") == Some(0);
    assert "aaa"[2..] == "a";
    assert FirstIndex("a", "aa") == None;
    assert Split("a", "aa") == ["a"];
  }

  /** When the local file exists, the content argument has no influence. */
  lemma ExistingFileIgnoresContent(store: Store, files: LocalFiles, libraryTitle: string, rootFolder: string,
                                   filePath: string, content1: Option<Bytes>, content2: Option<Bytes>,
                                   fileName: string, upload: Outcome)
    requires filePath in files
    ensures UploadFile(store, files, libraryTitle, rootFolder, filePath, content1, fileName, upload)
         == UploadFile(store, files, libraryTitle, rootFolder, filePath, content2, fileName, upload)
  {
  }

  /** Two uploads into a folder that did not exist create it once: the
      second upload finds the folder the first one created. */
  lemma RepeatedUploadCreatesFolderOnce(store: Store, files: LocalFiles, libraryTitle: string, rootFolder: string,
                                        filePath: string, fileContent: Option<Bytes>, fileName: string,
                                        upload1: Outcome, upload2: Outcome)
    requires SelectUploadInput(files, filePath, fileContent, fileName).Some?
    requires TitleCount(store, libraryTitle) == 1
    requires FolderCount(store, LibraryFromName(store, libraryTitle).value, rootFolder) == 0
    ensures var first := UploadFile(store, files, libraryTitle, rootFolder, filePath, fileContent, fileName, upload1);
            var second := UploadFile(first.store, files, libraryTitle, rootFolder, filePath, fileContent, fileName, upload2);
            && second.store == first.store
            && FolderCount(first.store, LibraryFromName(store, libraryTitle).value, rootFolder) == 1
  {
  }
}
