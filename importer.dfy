/**
 * The import pipeline: import_single_file, process_uploads,
 * import_from_directory and the batch summary of ajax_import_batch, over
 * the abstract WordPress store.
 */
module Importer {
  import opened Wrappers
  import opened Text
  import opened PathInfo
  import opened AltText
  import opened WordPress
  import Seqs
  import Batch

  /** PHP's UPLOAD_ERR_OK. */
  const UploadErrOk := 0

  /** One uploaded file: its original name and PHP's upload error code. */
  datatype Upload = Upload(name: string, errorCode: int)

  /** The per-file result array: success with the new post and attachment, or failure with a message. */
  datatype ImportResult =
    | Imported(filename: string, postId: nat, attachmentId: nat, postTitle: string, altText: string)
    | Failed(filename: string, message: string, existingPost: Option<nat>)

  function DuplicateMessage(title: string): string
  {
    "Post already exists: " + title
  }

  function UploadErrorMessage(code: int): string
  {
    "Upload error: " + IntToString(code)
  }

  /**
   * What a successful import did to the store: one new published post of
   * the type, with the title, showing the one new attachment, which carries
   * the alternative text; nothing else changed.
   */
  ghost predicate ImportedShape(before: Site, after: Site, r: ImportResult, title: string, alt: string, postType: string)
    requires r.Imported?
  {
    && r.postTitle == title && r.altText == alt
    && r.postId != 0 && r.attachmentId != 0
    && r.postId !in before.posts && r.postId !in before.attachments
    && r.attachmentId !in before.attachments && r.attachmentId !in before.posts
    && after.posts == before.posts[r.postId := Post(title, postType, "publish", Some(r.attachmentId))]
    && after.attachments == before.attachments[r.attachmentId := Attachment(r.filename, alt)]
  }

  /**
   * import_single_file once the title and the alternative text are known,
   * with a failed post insert rolled back as the code intends: duplicate
   * check, sideload, alternative text, insert (deleting the attachment again
   * when the insert fails), featured image.
   */
  function ImportNamed(site: Site, filename: string, title: string, alt: string, postType: string): (out: (Site, ImportResult))
    requires ValidSite(site)
    ensures ValidSite(out.0)
    ensures out.1.filename == filename
  {
    match FindByTitle(site, title, postType)
    case Some(existing) => (site, Failed(filename, DuplicateMessage(title), Some(existing)))
    case None =>
      var (s1, sideloaded) := Sideload(site, filename);
      match sideloaded
      case Failure(message) => (s1, Failed(filename, message, None))
      case Success(attachmentId) =>
        var s2 := SetAlt(s1, attachmentId, alt);
        var (s3, inserted) := InsertPost(s2, title, postType);
        match inserted
        case Failure(message) => (DeleteAttachment(s3, attachmentId), Failed(filename, message, None))
        case Success(postId) =>
          (SetThumbnail(s3, postId, attachmentId), Imported(filename, postId, attachmentId, title, alt))
  }

  /** import_single_file: the file is imported under its normalised name. */
  function ImportOne(site: Site, filename: string, postType: string): (out: (Site, ImportResult))
    requires ValidSite(site)
    ensures ValidSite(out.0)
    ensures out.1.filename == filename
  {
    ImportNamed(site, filename, GeneratePostTitle(filename), GenerateAltText(filename), postType)
  }

  /** Deleting an attachment that nothing else refers to restores the store it was added to. */
  lemma RollbackRestoresStore(site: Site, s: Site, id: nat)
    requires ValidSite(site) && ValidSite(s)
    requires id !in site.attachments && id in s.attachments
    requires s.posts == site.posts && s.attachments == site.attachments[id := s.attachments[id]]
    ensures DeleteAttachment(s, id).posts == site.posts
    ensures DeleteAttachment(s, id).attachments == site.attachments
  {
    assert forall p :: p in site.posts ==> site.posts[p].thumbnail != Some(id);
    assert s.attachments - {id} == site.attachments;
  }

  /** import_single_file as a sequence of host calls on the store. */
  method ImportSingleFile(store: Store, filename: string, postType: string) returns (r: ImportResult)
    requires store.Valid()
    modifies store
    ensures store.Valid()
    ensures (store.State(), r) == ImportOne(old(store.State()), filename, postType)
  {
    var altText := GenerateAltText(filename);
    var postTitle := GeneratePostTitle(filename);
    var existing := store.GetPageByTitle(postTitle, postType);
    if existing.Some? {
      return Failed(filename, DuplicateMessage(postTitle), existing);
    }
    var sideloaded := store.MediaHandleSideload(filename);
    if sideloaded.Failure? {
      return Failed(filename, sideloaded.error, None);
    }
    var attachmentId := sideloaded.value;
    store.UpdateAltText(attachmentId, altText);
    var inserted := store.WpInsertPost(postTitle, postType);
    if inserted.Failure? {
      store.WpDeleteAttachment(attachmentId);
      return Failed(filename, inserted.error, None);
    }
    var postId := inserted.value;
    store.SetPostThumbnail(postId, attachmentId);
    return Imported(filename, postId, attachmentId, postTitle, altText);
  }

  /** One item of process_uploads: an upload error short-circuits, anything else is imported. */
  function ProcessItem(site: Site, upload: Upload, postType: string): (out: (Site, ImportResult))
    requires ValidSite(site)
    ensures ValidSite(out.0)
    ensures out.1.filename == upload.name
    ensures upload.errorCode != UploadErrOk ==>
      out == (site, Failed(upload.name, UploadErrorMessage(upload.errorCode), None))
    ensures upload.errorCode == UploadErrOk ==> out == ImportOne(site, upload.name, postType)
  {
    if upload.errorCode != UploadErrOk then
      (site, Failed(upload.name, UploadErrorMessage(upload.errorCode), None))
    else
      ImportOne(site, upload.name, postType)
  }

  /** A store that keeps WordPress's invariants, the state a batch threads through its steps. */
  type ConsistentSite = s: Site | ValidSite(s) witness Site(map[], map[], 1, [], [])

  /** One item of process_uploads as a step over consistent stores. */
  function ItemStep(postType: string): (ConsistentSite, Upload) -> (ConsistentSite, ImportResult)
  {
    (s: ConsistentSite, upload: Upload) => ProcessItem(s, upload, postType)
  }

  /** The store and the results after processing the uploads in order. */
  function ProcessAll(site: Site, uploads: seq<Upload>, postType: string): (out: (Site, seq<ImportResult>))
    requires ValidSite(site)
    ensures ValidSite(out.0)
    ensures |out.1| == |uploads|
  {
    Batch.Run<ConsistentSite, Upload, ImportResult>(site, uploads, ItemStep(postType))
  }

  /** Processing one more upload continues from where the shorter batch left off. */
  lemma ProcessAllSnoc(site: Site, uploads: seq<Upload>, upload: Upload, postType: string)
    requires ValidSite(site)
    ensures ProcessAll(site, uploads + [upload], postType).0
      == ProcessItem(ProcessAll(site, uploads, postType).0, upload, postType).0
    ensures ProcessAll(site, uploads + [upload], postType).1
      == ProcessAll(site, uploads, postType).1 + [ProcessItem(ProcessAll(site, uploads, postType).0, upload, postType).1]
  {
    Batch.RunSnoc<ConsistentSite, Upload, ImportResult>(site, uploads, upload, ItemStep(postType));
  }

  /** The step of process_uploads' loop: processing upload i after the first i gives the first i + 1. */
  lemma {:induction false} ProcessedPrefix(site: Site, uploads: seq<Upload>, i: nat, postType: string,
                        s: Site, results: seq<ImportResult>, s': Site, result: ImportResult)
    requires ValidSite(site) && i < |uploads|
    requires (s, results) == ProcessAll(site, uploads[..i], postType)
    requires (s', result) == ProcessItem(s, uploads[i], postType)
    ensures (s', results + [result]) == ProcessAll(site, uploads[..i + 1], postType)
  {
    Seqs.TakeSnoc(uploads, i);
    ProcessAllSnoc(site, uploads[..i], uploads[i], postType);
  }

  /** process_uploads: one result per uploaded file, in order. */
  method ProcessUploads(store: Store, uploads: seq<Upload>, postType: string) returns (results: seq<ImportResult>)
    requires store.Valid()
    modifies store
    ensures store.Valid()
    ensures (store.State(), results) == ProcessAll(old(store.State()), uploads, postType)
  {
    results := [];
    for i := 0 to |uploads|
      invariant store.Valid()
      invariant (store.State(), results) == ProcessAll(old(store.State()), uploads[..i], postType)
    {
      var upload := uploads[i];
      ghost var before := store.State();
      if upload.errorCode != UploadErrOk {
        var failed := Failed(upload.name, UploadErrorMessage(upload.errorCode), None);
        ProcessedPrefix(old(store.State()), uploads, i, postType, before, results, before, failed);
        results := results + [failed];
        continue;
      }
      var result := ImportSingleFile(store, upload.name, postType);
      ProcessedPrefix(old(store.State()), uploads, i, postType, before, results, store.State(), result);
      results := results + [result];
    }
    assert uploads[..|uploads|] == uploads;
  }

  // ---- import_from_directory ----

  /** One name listed in the directory, and whether is_file holds of it. */
  datatype DirEntry = DirEntry(path: string, isFile: bool)

  const DefaultExtensions: seq<string> := ["jpg", "jpeg", "png", "gif", "svg", "webp"]

  /** A regular file whose lower-cased extension is allowed. */
  predicate Wanted(entry: DirEntry, allowed: seq<string>)
  {
    entry.isFile && ToLower(Extension(entry.path)) in allowed
  }

  /** The uploads one listed entry contributes: its base name when it is wanted, nothing otherwise. */
  function EntryUploads(entry: DirEntry, allowed: seq<string>): seq<Upload>
  {
    if Wanted(entry, allowed) then [Upload(Basename(entry.path), UploadErrOk)] else []
  }

  /** EntryUploads for one list of allowed extensions, as a function of the entry. */
  function Picks(allowed: seq<string>): DirEntry -> seq<Upload>
  {
    entry => EntryUploads(entry, allowed)
  }

  /** The uploads import_from_directory hands to import_single_file, in listing order. */
  function DirectoryUploads(entries: seq<DirEntry>, allowed: seq<string>): seq<Upload>
  {
    Seqs.FlatMap(entries, Picks(allowed))
  }

  /** Listing one more entry adds its upload when it is wanted. */
  lemma DirectoryUploadsSnoc(entries: seq<DirEntry>, entry: DirEntry, allowed: seq<string>)
    ensures DirectoryUploads(entries + [entry], allowed)
      == DirectoryUploads(entries, allowed) + EntryUploads(entry, allowed)
  {
    Seqs.FlatMapSnoc(entries, entry, Picks(allowed));
  }

  /** Processing two batches one after the other is processing their concatenation. */
  lemma ProcessAllAppend(site: Site, first: seq<Upload>, second: seq<Upload>, postType: string)
    requires ValidSite(site)
    ensures ProcessAll(site, first + second, postType).0
      == ProcessAll(ProcessAll(site, first, postType).0, second, postType).0
    ensures ProcessAll(site, first + second, postType).1
      == ProcessAll(site, first, postType).1 + ProcessAll(ProcessAll(site, first, postType).0, second, postType).1
  {
    Batch.RunAppend<ConsistentSite, Upload, ImportResult>(site, first, second, ItemStep(postType));
  }

  /** Listing one more entry continues the directory import from where the shorter listing left off. */
  lemma ListedStep(site: Site, entries: seq<DirEntry>, i: nat, allowed: seq<string>, postType: string)
    requires ValidSite(site)
    requires i < |entries|
    ensures var before := ProcessAll(site, DirectoryUploads(entries[..i], allowed), postType);
      var step := ProcessAll(before.0, EntryUploads(entries[i], allowed), postType);
      && ProcessAll(site, DirectoryUploads(entries[..i + 1], allowed), postType).0 == step.0
      && ProcessAll(site, DirectoryUploads(entries[..i + 1], allowed), postType).1 == before.1 + step.1
  {
    var listed := DirectoryUploads(entries[..i], allowed);
    var more := EntryUploads(entries[i], allowed);
    assert DirectoryUploads(entries[..i + 1], allowed) == listed + more by {
      assert entries[..i + 1] == entries[..i] + [entries[i]];
      DirectoryUploadsSnoc(entries[..i], entries[i], allowed);
    }
    ProcessAllAppend(site, listed, more, postType);
  }

  /** One pass of import_from_directory's loop: skip the entry, or import it. */
  method ImportEntry(store: Store, entry: DirEntry, postType: string, allowed: seq<string>)
    returns (imported: seq<ImportResult>)
    requires store.Valid()
    modifies store
    ensures store.Valid()
    ensures (store.State(), imported) == ProcessAll(old(store.State()), EntryUploads(entry, allowed), postType)
  {
    if !entry.isFile {
      return [];
    }
    var extension := ToLower(Extension(entry.path));
    if extension !in allowed {
      return [];
    }
    var upload := Upload(Basename(entry.path), UploadErrOk);
    ghost var before := old(store.State());
    ProcessAllSnoc(before, [], upload, postType);
    Seqs.EmptyAppend([upload]);
    assert ProcessAll(before, [], postType) == (before, []);
    assert ProcessItem(before, upload, postType) == ImportOne(before, upload.name, postType);
    var result := ImportSingleFile(store, upload.name, postType);
    assert ProcessAll(before, [upload], postType).1 == [result];
    assert ProcessAll(before, [upload], postType).0 == store.State();
    return [result];
  }

  /** The loop of import_from_directory over the listing, in order. */
  method ImportListed(store: Store, entries: seq<DirEntry>, postType: string, allowed: seq<string>)
    returns (results: seq<ImportResult>)
    requires store.Valid()
    modifies store
    ensures store.Valid()
    ensures (store.State(), results) == ProcessAll(old(store.State()), DirectoryUploads(entries, allowed), postType)
  {
    results := [];
    assert entries[..0] == [];
    for i := 0 to |entries|
      invariant store.Valid()
      invariant (store.State(), results) == ProcessAll(old(store.State()), DirectoryUploads(entries[..i], allowed), postType)
    {
      ListedStep(old(store.State()), entries, i, allowed, postType);
      var imported := ImportEntry(store, entries[i], postType, allowed);
      results := results + imported;
    }
    assert entries[..|entries|] == entries;
  }

  /**
   * import_from_directory: an error before anything is imported when the
   * path is not a directory, and otherwise the results of importing the
   * wanted files in listing order.
   */
  method ImportFromDirectory(store: Store, isDirectory: bool, directory: string, entries: seq<DirEntry>,
                             postType: string, allowed: seq<string> := DefaultExtensions)
    returns (r: Result<seq<ImportResult>, string>)
    requires store.Valid()
    modifies store
    ensures store.Valid()
    ensures !isDirectory ==>
      r == Failure("Directory does not exist: " + directory) && store.State() == old(store.State())
    ensures isDirectory ==>
      r.Success? && (store.State(), r.value) == ProcessAll(old(store.State()), DirectoryUploads(entries, allowed), postType)
  {
    if !isDirectory {
      return Failure("Directory does not exist: " + directory);
    }
    var results := ImportListed(store, entries, postType, allowed);
    return Success(results);
  }

  // ---- ajax_import_batch ----

  /** The JSON payload of a batch: the results with their total and successful counts. */
  datatype BatchSummary = BatchSummary(results: seq<ImportResult>, total: nat, successful: nat)

  predicate Succeeded(r: ImportResult) { r.Imported? }

  /** array_filter($results, fn($r) => $r['success']): the successful results, in order. */
  function Successes(results: seq<ImportResult>): (kept: seq<ImportResult>)
    ensures |kept| <= |results|
  {
    Seqs.Filter(results, Succeeded)
  }

  /**
   * ajax_import_batch after its nonce and capability checks: no uploads is
   * an error; otherwise every upload is processed and the results are
   * summarised.
   */
  method ImportBatch(store: Store, uploads: seq<Upload>, postType: string) returns (r: Result<BatchSummary, string>)
    requires store.Valid()
    modifies store
    ensures store.Valid()
    ensures uploads == [] ==> r == Failure("No files uploaded") && store.State() == old(store.State())
    ensures uploads != [] ==>
      && r.Success?
      && (store.State(), r.value.results) == ProcessAll(old(store.State()), uploads, postType)
      && r.value.total == |uploads|
      && r.value.successful == |Successes(r.value.results)|
  {
    if uploads == [] {
      return Failure("No files uploaded");
    }
    var results := ProcessUploads(store, uploads, postType);
    return Success(BatchSummary(results, |results|, |Successes(results)|));
  }
}
