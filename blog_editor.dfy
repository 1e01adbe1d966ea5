/** Saving and clearing in the blog editor (src/components/admin/BlogEditor.tsx).
    `handleSave` runs four checks in order, the first failure showing its
    message and writing nothing; otherwise it updates the blog being edited
    or inserts a new one, and reports how the write went. The database is a
    parameter: the write to perform is returned, and whether it failed is
    an input. */
module BlogEditor {
  import opened Str

  const TitleMissing: string := "Error : Please enter a blog title"
  const ForeignBlog: string := "Error : You cannot edit any other admin's blog"
  const ContentMissing: string := "Error : Please enter blog content"
  const AdminNotLoaded: string := "Error : Admin data not loaded. Please try again."
  const Updated: string := "Blog updated successfully!"
  const Saved: string := "Blog saved successfully!"
  const SaveFailed: string := "Error saving blog. Please try again."

  /** The row written to the `blogs` table. An update leaves the author and
      the creation time alone. */
  datatype Write =
    | Update(blogId: string, title: string, content: string, seriesId: Option<string>, updatedAt: string)
    | Insert(title: string, content: string, seriesId: Option<string>, authorId: string,
             updatedAt: string, createdAt: string)

  datatype Plan = Reject(message: string) | Submit(write: Write)

  /** `x || null` on an optional string. */
  function Nullish(o: Option<string>): (r: Option<string>)
    ensures r.None? <==> !Truthy(o)
    ensures r.Some? ==> r == o
  {
    if Truthy(o) then o else None
  }

  /** The editor was opened for another admin than the one signed in:
      `adminId && adminId != adminDataID`. */
  predicate Foreign(adminId: Option<string>, adminDataId: Option<string>) {
    Truthy(adminId) && (adminDataId.None? || adminDataId.value != adminId.value)
  }

  /** The decision `handleSave` takes (BlogEditor.tsx:130-186). `now` and
      `createdAt` are the two clock readings. */
  function SavePlan(title: string, content: string, series: Option<string>, adminId: Option<string>,
                    adminDataId: Option<string>, blogId: Option<string>, now: string, createdAt: string): Plan
  {
    if Trim(title) == "" then Reject(TitleMissing)
    else if Foreign(adminId, adminDataId) then Reject(ForeignBlog)
    else if Trim(content) == "" then Reject(ContentMissing)
    else if !Truthy(adminDataId) then Reject(AdminNotLoaded)
    else if Truthy(blogId) then Submit(Update(blogId.value, Trim(title), content, Nullish(series), now))
    else Submit(Insert(Trim(title), content, Nullish(series), adminDataId.value, now, createdAt))
  }

  /** The checks run in order and the first failure decides the message. */
  lemma SavePlanChecks(title: string, content: string, series: Option<string>, adminId: Option<string>,
                       adminDataId: Option<string>, blogId: Option<string>, now: string, createdAt: string)
    ensures var p := SavePlan(title, content, series, adminId, adminDataId, blogId, now, createdAt);
      && (p == Reject(TitleMissing) <==> IsBlank(title))
      && (p == Reject(ForeignBlog) <==> !IsBlank(title) && Foreign(adminId, adminDataId))
      && (p == Reject(ContentMissing) <==> !IsBlank(title) && !Foreign(adminId, adminDataId) && IsBlank(content))
      && (p == Reject(AdminNotLoaded) <==>
            !IsBlank(title) && !Foreign(adminId, adminDataId) && !IsBlank(content) && !Truthy(adminDataId))
      && (p.Submit? <==>
            !IsBlank(title) && !Foreign(adminId, adminDataId) && !IsBlank(content) && Truthy(adminDataId))
  {
  }

  /** What a write stores: the trimmed title, the content exactly as typed,
      the series or null, and, for a new blog, the signed-in admin as author.
      A blog is updated exactly when the editor was opened on one. */
  lemma SavePlanPayload(title: string, content: string, series: Option<string>, adminId: Option<string>,
                        adminDataId: Option<string>, blogId: Option<string>, now: string, createdAt: string)
    requires SavePlan(title, content, series, adminId, adminDataId, blogId, now, createdAt).Submit?
    ensures var w := SavePlan(title, content, series, adminId, adminDataId, blogId, now, createdAt).write;
      && w.title == Trim(title) && w.title != "" && w.content == content
      && w.seriesId == Nullish(series) && w.updatedAt == now
      && (w.Update? <==> Truthy(blogId))
      && (w.Update? ==> w.blogId == blogId.value)
      && (w.Insert? ==> Truthy(adminDataId) && w.authorId == adminDataId.value && w.createdAt == createdAt)
  {
  }

  /** Only one's own blogs are written: when the editor was opened for an
      admin, any write happens as that same admin. */
  lemma SavePlanOwnBlogsOnly(title: string, content: string, series: Option<string>, adminId: Option<string>,
                             adminDataId: Option<string>, blogId: Option<string>, now: string, createdAt: string)
    requires SavePlan(title, content, series, adminId, adminDataId, blogId, now, createdAt).Submit?
    requires Truthy(adminId)
    ensures adminDataId == adminId
  {
  }

  /** The editor's state. */
  class Editor {
    const blogId: Option<string>
    const adminId: Option<string>
    var title: string
    var content: string
    var series: Option<string>
    var adminDataId: Option<string>
    var message: string
    var isSaving: bool

    constructor (blogId: Option<string>, adminId: Option<string>)
      ensures this.blogId == blogId && this.adminId == adminId
      ensures title == "" && content == "" && series == Some("") && adminDataId.None?
      ensures message == "" && !isSaving
    {
      this.blogId := blogId;
      this.adminId := adminId;
      title, content, series := "", "", Some("");
      adminDataId := None;
      message := "";
      isSaving := false;
    }

    /** `handleSave` (BlogEditor.tsx:130-199). It returns the write it
        submitted, if any; `writeFails` says whether the database reported an
        error. The form itself is never changed. */
    method HandleSave(now: string, createdAt: string, writeFails: bool) returns (submitted: Option<Write>)
      modifies this
      ensures var p := SavePlan(old(title), old(content), old(series), adminId, old(adminDataId), blogId, now, createdAt);
        && (p.Reject? ==> submitted.None? && message == p.message && isSaving == old(isSaving))
        && (p.Submit? ==>
              && submitted == Some(p.write)
              && message == (if writeFails then SaveFailed else if Truthy(blogId) then Updated else Saved)
              && !isSaving)
      ensures title == old(title) && content == old(content) && series == old(series)
      ensures adminDataId == old(adminDataId)
    {
      submitted := None;
      if Trim(title) == "" {
        message := TitleMissing;
        return;
      }
      if Truthy(adminId) && (adminDataId.None? || adminId.value != adminDataId.value) {
        message := ForeignBlog;
        return;
      }
      if Trim(content) == "" {
        message := ContentMissing;
        return;
      }
      if !Truthy(adminDataId) {
        message := AdminNotLoaded;
        return;
      }
      isSaving := true;
      message := "";
      var trimmedTitle := Trim(title);
      var seriesId := Nullish(series);
      var w: Write;
      if Truthy(blogId) {
        w := Update(blogId.value, trimmedTitle, content, seriesId, now);
      } else {
        w := Insert(trimmedTitle, content, seriesId, adminDataId.value, now, createdAt);
      }
      submitted := Some(w);
      if writeFails {
        message := SaveFailed;
      } else {
        message := if Truthy(blogId) then Updated else Saved;
      }
      isSaving := false;
    }

    /** `handleClear` (BlogEditor.tsx:201-208); `confirmed` is the answer to
        the confirmation dialog. */
    method HandleClear(confirmed: bool)
      modifies this
      ensures confirmed ==> title == "" && content == "" && series == Some("") && message == ""
      ensures !confirmed ==> title == old(title) && content == old(content) && series == old(series)
                             && message == old(message)
      ensures adminDataId == old(adminDataId) && isSaving == old(isSaving)
    {
      if confirmed {
        content := "";
        title := "";
        series := Some("");
        message := "";
      }
    }
  }
}
