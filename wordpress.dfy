/**
 * The part of WordPress the importer talks to, as an abstract store: the
 * posts (title, post type, status, featured image) and the media
 * attachments (file name, alternative text), with the host calls the
 * importer makes on them. Whether the host accepts a sideload or a post
 * insert is decided by two plans of verdicts that each call consumes from
 * the front; an exhausted plan accepts.
 */
module WordPress {
  import opened Wrappers

  datatype Post = Post(title: string, postType: string, status: string, thumbnail: Option<nat>)

  datatype Attachment = Attachment(filename: string, altText: string)

  /** What the host answers to one sideload or insert. */
  datatype HostVerdict = Accept | Reject(message: string)

  /**
   * Posts and attachments share WordPress's one sequence of row ids, which
   * starts at 1; 0 is never the id of anything.
   */
  datatype Site = Site(
    posts: map<nat, Post>,
    attachments: map<nat, Attachment>,
    nextId: nat,
    sideloadPlan: seq<HostVerdict>,
    insertPlan: seq<HostVerdict>)

  ghost predicate ValidSite(site: Site)
  {
    && 1 <= site.nextId
    && (forall id :: id in site.posts ==> 1 <= id < site.nextId)
    && (forall id :: id in site.attachments ==> 1 <= id < site.nextId)
    && (forall id :: id in site.posts ==> id !in site.attachments)
    && (forall id :: id in site.posts && site.posts[id].thumbnail.Some? ==>
          site.posts[id].thumbnail.value in site.attachments)
  }

  /** The host's next verdict and what is left of the plan. */
  function NextVerdict(plan: seq<HostVerdict>): (HostVerdict, seq<HostVerdict>)
  {
    if plan == [] then (Accept, []) else (plan[0], plan[1..])
  }

  predicate IsMatch(post: Post, title: string, postType: string)
  {
    post.title == title && post.postType == postType
  }

  /** The first post, by id, in [from, to) with the given title and type. */
  function FirstMatch(posts: map<nat, Post>, title: string, postType: string, from: nat, to: nat): (r: Option<nat>)
    decreases if from <= to then to - from else 0
    ensures r.Some? ==> from <= r.value < to && r.value in posts && IsMatch(posts[r.value], title, postType)
    ensures r.Some? ==> forall id :: from <= id < r.value && id in posts ==> !IsMatch(posts[id], title, postType)
    ensures r.None? ==> forall id :: from <= id < to && id in posts ==> !IsMatch(posts[id], title, postType)
  {
    if from >= to then None
    else if from in posts && IsMatch(posts[from], title, postType) then Some(from)
    else FirstMatch(posts, title, postType, from + 1, to)
  }

  /** get_page_by_title: the lowest-id post of the type whose title is exactly the given one. */
  function FindByTitle(site: Site, title: string, postType: string): (r: Option<nat>)
    requires ValidSite(site)
    ensures r.Some? ==> r.value in site.posts && IsMatch(site.posts[r.value], title, postType)
    ensures r.Some? ==> forall id :: id in site.posts && id < r.value ==> !IsMatch(site.posts[id], title, postType)
    ensures r.None? <==> forall id :: id in site.posts ==> !IsMatch(site.posts[id], title, postType)
  {
    FirstMatch(site.posts, title, postType, 1, site.nextId)
  }

  /** media_handle_sideload: a new attachment with no alternative text yet, or the host's error. */
  function Sideload(site: Site, filename: string): (out: (Site, Result<nat, string>))
    requires ValidSite(site)
    ensures ValidSite(out.0)
    ensures out.0.posts == site.posts && out.0.insertPlan == site.insertPlan
    ensures out.1.Success? ==>
      && out.1.value !in site.attachments && out.1.value !in site.posts && out.1.value != 0
      && out.0.attachments == site.attachments[out.1.value := Attachment(filename, "")]
    ensures out.1.Failure? ==> out.0.attachments == site.attachments && out.0.nextId == site.nextId
  {
    var (verdict, rest) := NextVerdict(site.sideloadPlan);
    match verdict
    case Reject(message) => (site.(sideloadPlan := rest), Failure(message))
    case Accept =>
      var id := site.nextId;
      (site.(attachments := site.attachments[id := Attachment(filename, "")], nextId := id + 1,
             sideloadPlan := rest),
       Success(id))
  }

  /** update_post_meta(id, '_wp_attachment_image_alt', alt) on an attachment. */
  function SetAlt(site: Site, id: nat, alt: string): (s: Site)
    requires ValidSite(site)
    ensures ValidSite(s)
    ensures s.posts == site.posts && s.nextId == site.nextId
    ensures s.sideloadPlan == site.sideloadPlan && s.insertPlan == site.insertPlan
    ensures id in site.attachments ==>
      s.attachments == site.attachments[id := site.attachments[id].(altText := alt)]
    ensures id !in site.attachments ==> s.attachments == site.attachments
  {
    if id in site.attachments then
      site.(attachments := site.attachments[id := site.attachments[id].(altText := alt)])
    else site
  }

  /** wp_insert_post of a published post without a featured image, or the host's error. */
  function InsertPost(site: Site, title: string, postType: string): (out: (Site, Result<nat, string>))
    requires ValidSite(site)
    ensures ValidSite(out.0)
    ensures out.0.attachments == site.attachments && out.0.sideloadPlan == site.sideloadPlan
    ensures out.1.Success? ==>
      && out.1.value !in site.posts && out.1.value !in site.attachments && out.1.value != 0
      && out.0.posts == site.posts[out.1.value := Post(title, postType, "publish", None)]
    ensures out.1.Failure? ==> out.0.posts == site.posts && out.0.nextId == site.nextId
  {
    var (verdict, rest) := NextVerdict(site.insertPlan);
    match verdict
    case Reject(message) => (site.(insertPlan := rest), Failure(message))
    case Accept =>
      var id := site.nextId;
      (site.(posts := site.posts[id := Post(title, postType, "publish", None)], nextId := id + 1,
             insertPlan := rest),
       Success(id))
  }

  /** The posts once no featured image points at the attachment. */
  function ClearThumbnail(posts: map<nat, Post>, id: nat): (r: map<nat, Post>)
    ensures r.Keys == posts.Keys
    ensures forall p :: p in r ==> r[p].thumbnail != Some(id)
    ensures forall p :: p in r && posts[p].thumbnail != Some(id) ==> r[p] == posts[p]
    ensures forall p :: p in r && posts[p].thumbnail == Some(id) ==> r[p] == posts[p].(thumbnail := None)
  {
    map p | p in posts :: if posts[p].thumbnail == Some(id) then posts[p].(thumbnail := None) else posts[p]
  }

  /** wp_delete_attachment(id, true): the attachment goes, and so does every featured-image link to it. */
  function DeleteAttachment(site: Site, id: nat): (s: Site)
    requires ValidSite(site)
    ensures ValidSite(s)
    ensures s.attachments == site.attachments - {id}
    ensures s.posts.Keys == site.posts.Keys
    ensures s.posts == ClearThumbnail(site.posts, id)
    ensures (forall p :: p in site.posts ==> site.posts[p].thumbnail != Some(id)) ==> s.posts == site.posts
    ensures s.nextId == site.nextId && s.sideloadPlan == site.sideloadPlan && s.insertPlan == site.insertPlan
  {
    site.(attachments := site.attachments - {id}, posts := ClearThumbnail(site.posts, id))
  }

  /** set_post_thumbnail: links the attachment when both it and the post exist, and does nothing otherwise. */
  function SetThumbnail(site: Site, postId: nat, attachmentId: nat): (s: Site)
    requires ValidSite(site)
    ensures ValidSite(s)
    ensures s.attachments == site.attachments && s.nextId == site.nextId
    ensures s.sideloadPlan == site.sideloadPlan && s.insertPlan == site.insertPlan
    ensures postId in site.posts && attachmentId in site.attachments ==>
      s.posts == site.posts[postId := site.posts[postId].(thumbnail := Some(attachmentId))]
    ensures !(postId in site.posts && attachmentId in site.attachments) ==> s == site
  {
    if postId in site.posts && attachmentId in site.attachments then
      site.(posts := site.posts[postId := site.posts[postId].(thumbnail := Some(attachmentId))])
    else site
  }

  /** The WordPress installation the importer runs against, updated in place by each host call. */
  class Store {
    var posts: map<nat, Post>
    var attachments: map<nat, Attachment>
    var nextId: nat
    var sideloadPlan: seq<HostVerdict>
    var insertPlan: seq<HostVerdict>

    function State(): Site
      reads this
    {
      Site(posts, attachments, nextId, sideloadPlan, insertPlan)
    }

    ghost predicate Valid()
      reads this
    {
      ValidSite(State())
    }

    constructor(site: Site)
      requires ValidSite(site)
      ensures State() == site && Valid()
    {
      posts, attachments, nextId := site.posts, site.attachments, site.nextId;
      sideloadPlan, insertPlan := site.sideloadPlan, site.insertPlan;
    }

    method Put(site: Site)
      modifies this
      ensures State() == site
    {
      posts, attachments, nextId := site.posts, site.attachments, site.nextId;
      sideloadPlan, insertPlan := site.sideloadPlan, site.insertPlan;
    }

    method GetPageByTitle(title: string, postType: string) returns (r: Option<nat>)
      requires Valid()
      ensures r == FindByTitle(State(), title, postType)
    {
      r := FindByTitle(State(), title, postType);
    }

    method MediaHandleSideload(filename: string) returns (r: Result<nat, string>)
      requires Valid()
      modifies this
      ensures (State(), r) == Sideload(old(State()), filename)
      ensures Valid()
    {
      var out := Sideload(State(), filename);
      Put(out.0);
      r := out.1;
    }

    method UpdateAltText(id: nat, alt: string)
      requires Valid()
      modifies this
      ensures State() == SetAlt(old(State()), id, alt)
      ensures Valid()
    {
      Put(SetAlt(State(), id, alt));
    }

    method WpInsertPost(title: string, postType: string) returns (r: Result<nat, string>)
      requires Valid()
      modifies this
      ensures (State(), r) == InsertPost(old(State()), title, postType)
      ensures Valid()
    {
      var out := InsertPost(State(), title, postType);
      Put(out.0);
      r := out.1;
    }

    method WpDeleteAttachment(id: nat)
      requires Valid()
      modifies this
      ensures State() == DeleteAttachment(old(State()), id)
      ensures Valid()
    {
      Put(DeleteAttachment(State(), id));
    }

    method SetPostThumbnail(postId: nat, attachmentId: nat)
      requires Valid()
      modifies this
      ensures State() == SetThumbnail(old(State()), postId, attachmentId)
      ensures Valid()
    {
      Put(SetThumbnail(State(), postId, attachmentId));
    }
  }
}
