/**
 * import_single_file exactly as written. wp_insert_post is called without
 * asking for a WP_Error, so a rejected insert comes back as the post id 0
 * rather than as an error: the is_wp_error check never fires, the
 * attachment is never deleted, set_post_thumbnail(0, ...) finds no post,
 * and the file is reported as imported into post 0. The rest of the model
 * uses ImportNamed, which rolls back as the code evidently intends.
 */
module ImporterAsWritten {
  import opened Wrappers
  import opened WordPress
  import opened Importer

  /** The as-written import: a rejected insert yields post id 0 and the run carries on. */
  function ImportNamedAsWritten(site: Site, filename: string, title: string, alt: string, postType: string): (out: (Site, ImportResult))
    requires ValidSite(site)
    ensures ValidSite(out.0)
    ensures out.1.filename == filename
  {
    match FindByTitle(site, title, postType)
    case Some(existing) => (site, Failed(filename, DuplicateMessage(title), Some(existing)))
    case None =>
      var (s1, sideloaded) := Sideload(site, filename);
      match sideloaded
      case Failure(message) => (s1, Failed(filename, message, None))
      case Success(attachmentId) =>
        var s2 := SetAlt(s1, attachmentId, alt);
        var (s3, inserted) := InsertPost(s2, title, postType);
        var postId := if inserted.Success? then inserted.value else 0;
        (SetThumbnail(s3, postId, attachmentId), Imported(filename, postId, attachmentId, title, alt))
  }

  /** Whenever the host accepts the post insert, the as-written import and the rolled-back one agree. */
  lemma AsWrittenAgreesWhenInsertAccepted(site: Site, filename: string, title: string, alt: string, postType: string)
    requires ValidSite(site)
    requires NextVerdict(site.insertPlan).0 == Accept
    ensures ImportNamedAsWritten(site, filename, title, alt, postType) == ImportNamed(site, filename, title, alt, postType)
  {
    if FindByTitle(site, title, postType).None? {
      var (s1, sideloaded) := Sideload(site, filename);
      if sideloaded.Success? {
        var s2 := SetAlt(s1, sideloaded.value, alt);
        assert s2.insertPlan == site.insertPlan;
      }
    }
  }

  /**
   * A rejected insert: as written, the file is reported as imported into
   * post 0 and its attachment stays behind, shown by no post; rolled back,
   * it is reported as failed with the host's message and the store's posts
   * and attachments are as they were.
   */
  lemma InsertFailureReportedAsSuccess(site: Site, filename: string, title: string, alt: string, postType: string)
    requires ValidSite(site)
    requires FindByTitle(site, title, postType).None?
    requires NextVerdict(site.sideloadPlan).0 == Accept
    requires NextVerdict(site.insertPlan).0.Reject?
    ensures var out := ImportNamedAsWritten(site, filename, title, alt, postType);
      && out.1 == Imported(filename, 0, site.nextId, title, alt)
      && out.0.posts == site.posts
      && out.0.attachments == site.attachments[site.nextId := Attachment(filename, alt)]
      && site.nextId !in site.attachments
      && (forall p :: p in out.0.posts ==> out.0.posts[p].thumbnail != Some(site.nextId))
    ensures var out := ImportNamed(site, filename, title, alt, postType);
      && out.1 == Failed(filename, NextVerdict(site.insertPlan).0.message, None)
      && out.0.posts == site.posts
      && out.0.attachments == site.attachments
  {
    var id := site.nextId;
    var (s1, sideloaded) := Sideload(site, filename);
    assert sideloaded == Success(id);
    var s2 := SetAlt(s1, id, alt);
    var (s3, inserted) := InsertPost(s2, title, postType);
    assert inserted.Failure?;
    assert !(0 in s3.posts) by {
      assert forall p :: p in site.posts ==> 1 <= p;
    }
    RollbackRestoresStore(site, s3, id);
  }
}
