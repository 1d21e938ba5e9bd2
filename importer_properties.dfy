/**
 * What import_single_file, process_uploads, import_from_directory and the
 * batch summary promise: a duplicate title is refused without touching the
 * store, every failure leaves the posts and attachments as they were, a
 * success adds exactly one post showing exactly one new attachment, a file
 * imported once is refused the second time, upload errors never reach the
 * store, and the summary counts what succeeded.
 */
module ImporterProperties {
  import opened Wrappers
  import opened PathInfo
  import opened AltText
  import opened WordPress
  import opened Importer
  import Seqs
  import Batch

  // ---- one file, once its title and alternative text are known ----

  /** A post of the same title and type is reported, with its id, and nothing is created. */
  lemma NamedDuplicateIsRefused(site: Site, filename: string, title: string, alt: string, postType: string)
    requires ValidSite(site)
    ensures var out := ImportNamed(site, filename, title, alt, postType);
      FindByTitle(site, title, postType).Some? <==> out.1.Failed? && out.1.existingPost.Some?
    ensures var existing := FindByTitle(site, title, postType);
      existing.Some? ==>
        ImportNamed(site, filename, title, alt, postType) == (site, Failed(filename, DuplicateMessage(title), existing))
  {
  }

  /** Every failure, whichever step it comes from, leaves the posts and the attachments as they were. */
  lemma NamedFailureLeavesNothingBehind(site: Site, filename: string, title: string, alt: string, postType: string)
    requires ValidSite(site)
    ensures var out := ImportNamed(site, filename, title, alt, postType);
      out.1.Failed? ==> out.0.posts == site.posts && out.0.attachments == site.attachments
  {
    if FindByTitle(site, title, postType).None? {
      var (s1, sideloaded) := Sideload(site, filename);
      if sideloaded.Success? {
        var id := sideloaded.value;
        var s2 := SetAlt(s1, id, alt);
        var (s3, inserted) := InsertPost(s2, title, postType);
        if inserted.Failure? {
          RollbackRestoresStore(site, s3, id);
        }
      }
    }
  }

  /**
   * A file is imported exactly when no post of the title and type exists
   * and the host accepts both the sideload and the post insert.
   */
  lemma NamedImportedIffAccepted(site: Site, filename: string, title: string, alt: string, postType: string)
    requires ValidSite(site)
    ensures ImportNamed(site, filename, title, alt, postType).1.Imported? <==>
      && FindByTitle(site, title, postType).None?
      && NextVerdict(site.sideloadPlan).0 == Accept
      && NextVerdict(site.insertPlan).0 == Accept
  {
  }

  /** A sideload the host rejects is reported with the host's message and no post, and creates nothing. */
  lemma NamedSideloadRejected(site: Site, filename: string, title: string, alt: string, postType: string)
    requires ValidSite(site)
    requires FindByTitle(site, title, postType).None? && NextVerdict(site.sideloadPlan).0.Reject?
    ensures ImportNamed(site, filename, title, alt, postType).1
      == Failed(filename, NextVerdict(site.sideloadPlan).0.message, None)
  {
  }

  /** A post insert the host rejects after an accepted sideload is reported with the host's message and no post. */
  lemma NamedInsertRejected(site: Site, filename: string, title: string, alt: string, postType: string)
    requires ValidSite(site)
    requires FindByTitle(site, title, postType).None? && NextVerdict(site.sideloadPlan).0 == Accept
    requires NextVerdict(site.insertPlan).0.Reject?
    ensures ImportNamed(site, filename, title, alt, postType).1
      == Failed(filename, NextVerdict(site.insertPlan).0.message, None)
  {
  }

  /** A success created one published post with the title, showing one new attachment that carries the alternative text. */
  lemma NamedSuccessShape(site: Site, filename: string, title: string, alt: string, postType: string)
    requires ValidSite(site)
    ensures var out := ImportNamed(site, filename, title, alt, postType);
      out.1.Imported? ==> ImportedShape(site, out.0, out.1, title, alt, postType)
  {
    if FindByTitle(site, title, postType).None? {
      var (s1, sideloaded) := Sideload(site, filename);
      if sideloaded.Success? {
        var aid := sideloaded.value;
        var s2 := SetAlt(s1, aid, alt);
        assert s2.attachments == site.attachments[aid := Attachment(filename, alt)];
        var (s3, inserted) := InsertPost(s2, title, postType);
        if inserted.Success? {
          var pid := inserted.value;
          var s4 := SetThumbnail(s3, pid, aid);
          assert s4.posts == site.posts[pid := Post(title, postType, "publish", Some(aid))];
        }
      }
    }
  }

  /**
   * Once a file has been imported, importing a file with the same title into
   * the same post type is refused, naming the post the first import created,
   * and changes nothing.
   */
  lemma NamedSecondImportIsDuplicate(site: Site, first: string, second: string, title: string,
                                     alt: string, alt': string, postType: string)
    requires ValidSite(site)
    ensures var out := ImportNamed(site, first, title, alt, postType);
      out.1.Imported? ==>
        ImportNamed(out.0, second, title, alt', postType)
          == (out.0, Failed(second, DuplicateMessage(title), Some(out.1.postId)))
  {
    var out := ImportNamed(site, first, title, alt, postType);
    if out.1.Imported? {
      NamedDuplicateIsRefused(site, first, title, alt, postType);
      NamedSuccessShape(site, first, title, alt, postType);
      var pid := out.1.postId;
      assert forall id :: id in site.posts ==> !IsMatch(site.posts[id], title, postType);
      assert IsMatch(out.0.posts[pid], title, postType);
      var found := FindByTitle(out.0, title, postType);
      assert found == Some(pid);
    }
  }

  // ---- one file under its normalised name ----

  /** import_single_file refuses a file whose normalised name is already a post title of the type. */
  lemma DuplicateIsRefused(site: Site, filename: string, postType: string)
    requires ValidSite(site)
    ensures var existing := FindByTitle(site, GeneratePostTitle(filename), postType);
      existing.Some? ==>
        ImportOne(site, filename, postType)
          == (site, Failed(filename, DuplicateMessage(GeneratePostTitle(filename)), existing))
    ensures FindByTitle(site, GeneratePostTitle(filename), postType).None? ==>
      ImportOne(site, filename, postType).1.Imported? || ImportOne(site, filename, postType).1.existingPost.None?
  {
    NamedDuplicateIsRefused(site, filename, GeneratePostTitle(filename), GenerateAltText(filename), postType);
  }

  /** import_single_file imports exactly when the normalised name is a new title and the host accepts both calls. */
  lemma ImportedIffAccepted(site: Site, filename: string, postType: string)
    requires ValidSite(site)
    ensures ImportOne(site, filename, postType).1.Imported? <==>
      && FindByTitle(site, GeneratePostTitle(filename), postType).None?
      && NextVerdict(site.sideloadPlan).0 == Accept
      && NextVerdict(site.insertPlan).0 == Accept
  {
    NamedImportedIffAccepted(site, filename, GeneratePostTitle(filename), GenerateAltText(filename), postType);
  }

  /** import_single_file reports a rejected sideload with the host's message and no post. */
  lemma SideloadRejected(site: Site, filename: string, postType: string)
    requires ValidSite(site)
    requires FindByTitle(site, GeneratePostTitle(filename), postType).None?
    requires NextVerdict(site.sideloadPlan).0.Reject?
    ensures ImportOne(site, filename, postType).1 == Failed(filename, NextVerdict(site.sideloadPlan).0.message, None)
  {
    NamedSideloadRejected(site, filename, GeneratePostTitle(filename), GenerateAltText(filename), postType);
  }

  /** import_single_file reports a rejected post insert with the host's message and no post. */
  lemma InsertRejected(site: Site, filename: string, postType: string)
    requires ValidSite(site)
    requires FindByTitle(site, GeneratePostTitle(filename), postType).None?
    requires NextVerdict(site.sideloadPlan).0 == Accept && NextVerdict(site.insertPlan).0.Reject?
    ensures ImportOne(site, filename, postType).1 == Failed(filename, NextVerdict(site.insertPlan).0.message, None)
  {
    NamedInsertRejected(site, filename, GeneratePostTitle(filename), GenerateAltText(filename), postType);
  }

  /** A failed import_single_file leaves the posts and attachments as they were. */
  lemma FailureLeavesNothingBehind(site: Site, filename: string, postType: string)
    requires ValidSite(site)
    ensures var out := ImportOne(site, filename, postType);
      out.1.Failed? ==> out.0.posts == site.posts && out.0.attachments == site.attachments
  {
    NamedFailureLeavesNothingBehind(site, filename, GeneratePostTitle(filename), GenerateAltText(filename), postType);
  }

  /** A successful import_single_file is titled and described with the file's normalised name. */
  lemma SuccessShape(site: Site, filename: string, postType: string)
    requires ValidSite(site)
    ensures var out := ImportOne(site, filename, postType);
      out.1.Imported? ==>
        ImportedShape(site, out.0, out.1, GenerateAltText(filename), GenerateAltText(filename), postType)
  {
    NamedSuccessShape(site, filename, GeneratePostTitle(filename), GenerateAltText(filename), postType);
  }

  /** Importing the same file twice: the second import is refused with the first one's post and changes nothing. */
  lemma SecondImportIsDuplicate(site: Site, filename: string, postType: string)
    requires ValidSite(site)
    ensures var out := ImportOne(site, filename, postType);
      out.1.Imported? ==>
        ImportOne(out.0, filename, postType)
          == (out.0, Failed(filename, DuplicateMessage(GeneratePostTitle(filename)), Some(out.1.postId)))
  {
    var title := GeneratePostTitle(filename);
    var alt := GenerateAltText(filename);
    NamedSecondImportIsDuplicate(site, filename, filename, title, alt, alt, postType);
  }

  // ---- process_uploads ----

  /** The result at position i of a batch is about the upload at position i. */
  lemma ProcessAllResultAt(site: Site, uploads: seq<Upload>, postType: string, i: nat)
    requires ValidSite(site)
    requires i < |uploads|
    ensures ProcessAll(site, uploads, postType).1[i].filename == uploads[i].name
    ensures uploads[i].errorCode != UploadErrOk ==>
      ProcessAll(site, uploads, postType).1[i] == Failed(uploads[i].name, UploadErrorMessage(uploads[i].errorCode), None)
    ensures uploads[i].errorCode == UploadErrOk ==>
      ProcessAll(site, uploads, postType).1[i] == ImportOne(ProcessAll(site, uploads[..i], postType).0, uploads[i].name, postType).1
  {
    Batch.RunAt<ConsistentSite, Upload, ImportResult>(site, uploads, ItemStep(postType), i);
  }

  /** One result per upload, in order, naming its file; an upload error is reported with its code. */
  lemma ProcessAllResults(site: Site, uploads: seq<Upload>, postType: string)
    requires ValidSite(site)
    ensures var results := ProcessAll(site, uploads, postType).1;
      && |results| == |uploads|
      && (forall i :: 0 <= i < |uploads| ==> results[i].filename == uploads[i].name)
      && (forall i :: 0 <= i < |uploads| && uploads[i].errorCode != UploadErrOk ==>
            results[i] == Failed(uploads[i].name, UploadErrorMessage(uploads[i].errorCode), None))
  {
    forall i | 0 <= i < |uploads| {
      ProcessAllResultAt(site, uploads, postType, i);
    }
  }

  /** An upload that arrived without an error. */
  predicate Clean(upload: Upload)
  {
    upload.errorCode == UploadErrOk
  }

  /** Uploads that arrived with an error never reach the store: it ends as if only the clean ones were sent. */
  lemma UploadErrorsNeverReachStore(site: Site, uploads: seq<Upload>, postType: string)
    requires ValidSite(site)
    ensures ProcessAll(site, uploads, postType).0 == ProcessAll(site, Seqs.Filter(uploads, Clean), postType).0
  {
    forall s: ConsistentSite, u: Upload | !Clean(u)
      ensures ItemStep(postType)(s, u).0 == s
    {
    }
    Batch.RunSkips<ConsistentSite, Upload, ImportResult>(site, uploads, ItemStep(postType), Clean);
  }

  // ---- import_from_directory ----

  /** A file reaches import_single_file exactly when some listed entry is a wanted file of that base name. */
  lemma DirectoryUploadsAreWantedFiles(entries: seq<DirEntry>, allowed: seq<string>, u: Upload)
    ensures u in DirectoryUploads(entries, allowed) <==>
      exists i :: 0 <= i < |entries| && Wanted(entries[i], allowed) && u == Upload(Basename(entries[i].path), UploadErrOk)
  {
    Seqs.FlatMapMembers(entries, Picks(allowed), u);
    forall i | 0 <= i < |entries|
      ensures u in Picks(allowed)(entries[i]) <==>
        Wanted(entries[i], allowed) && u == Upload(Basename(entries[i].path), UploadErrOk)
    {
    }
  }

  // ---- ajax_import_batch ----

  /** The successes of two runs of results are the successes of each, in order. */
  lemma SuccessesAppend(first: seq<ImportResult>, second: seq<ImportResult>)
    ensures Successes(first + second) == Successes(first) + Successes(second)
  {
    Seqs.FilterAppend(first, second, Succeeded);
  }

  /** The successes are exactly the imported results. */
  lemma SuccessesAreTheImported(results: seq<ImportResult>, r: ImportResult)
    ensures r in Successes(results) <==> r in results && r.Imported?
  {
    Seqs.FilterMembers(results, Succeeded, r);
  }

  /** The successful count equals the total exactly when every file was imported. */
  lemma {:induction false} AllSucceededIffCountsAgree(results: seq<ImportResult>)
    ensures |Successes(results)| == |results| <==> forall i :: 0 <= i < |results| ==> results[i].Imported?
    decreases |results|
  {
    if results != [] {
      var init := results[..|results| - 1];
      AllSucceededIffCountsAgree(init);
      assert forall i :: 0 <= i < |init| ==> init[i] == results[i];
    }
  }
}
