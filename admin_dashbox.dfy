/** The signed-in admin's profile box (src/components/admin/AdminDashbox.tsx):
    a form loaded from the admin's row, avatar replacement, cancelling an
    edit, and saving with URL checks. The database, the image decoder and
    the browser's storage are inputs. */
module AdminDashbox {
  import opened Str
  import opened Avatar

  /** The `admins` row as the box reads it. */
  datatype AdminRow = AdminRow(id: string, username: Option<string>, name: Option<string>,
                               githubUrl: Option<string>, linkedinUrl: Option<string>,
                               avatarUrl: Option<string>)

  datatype Form = Form(username: string, githubUrl: string, linkedinUrl: string, avatarUrl: string)

  /** The form filled from a row (AdminDashbox.tsx:106-111, 221-226): the
      username falls back to the name, and every field to `''`. */
  function FormFrom(a: AdminRow): Form {
    Form(if Truthy(a.username) then a.username.value else OrEmpty(a.name),
         OrEmpty(a.githubUrl), OrEmpty(a.linkedinUrl), OrEmpty(a.avatarUrl))
  }

  /** The username shown is the row's username, else its name, else empty. */
  lemma FormFromDefaults(a: AdminRow)
    ensures Truthy(a.username) ==> FormFrom(a).username == a.username.value
    ensures !Truthy(a.username) && Truthy(a.name) ==> FormFrom(a).username == a.name.value
    ensures FormFrom(a).username == "" <==> !Truthy(a.username) && !Truthy(a.name)
    ensures FormFrom(a).githubUrl == "" <==> !Truthy(a.githubUrl)
    ensures FormFrom(a).avatarUrl == "" <==> !Truthy(a.avatarUrl)
  {
  }

  /** `/^https?:\/\/.+/.test(u)`: `http://` or `https://` at the start and
      at least one more character, which `.` requires not to end a line. */
  predicate UrlOk(u: string) {
    (StartsWith(u, "http://") && |u| > 7 && !IsLineTerminator(u[7]))
    || (StartsWith(u, "https://") && |u| > 8 && !IsLineTerminator(u[8]))
  }

  /** A scheme followed by a host passes; a bare scheme does not. */
  lemma UrlOkIntro(secure: bool, rest: string)
    ensures var u := (if secure then "https://" else "http://") + rest;
      UrlOk(u) <==> rest != [] && !IsLineTerminator(rest[0])
  {
    var p := if secure then "https://" else "http://";
    var u := p + rest;
    assert u[..|p|] == p;
    if rest != [] {
      assert u[|p|] == rest[0];
    }
    assert u[4] == p[4];
    if !secure && |u| >= 8 {
      assert u[..8][4] == ':';
    }
    if secure {
      assert u[..7][4] == 's';
    }
  }

  /** Every URL that passes starts with one of the two schemes. */
  lemma UrlOkShape(u: string)
    requires UrlOk(u)
    ensures StartsWith(u, "http://") || StartsWith(u, "https://")
  {
  }

  const UsernameRequired: string := "Username is required"
  const BadGithub: string := "Please enter a valid GitHub URL"
  const BadLinkedin: string := "Please enter a valid LinkedIn URL"
  const SaveFailedDefault: string := "Failed to save changes"

  /** The update sent for the admin's row. */
  datatype Update = Update(id: string, username: string, githubUrl: Option<string>,
                           linkedinUrl: Option<string>, avatarUrl: Option<string>, updatedAt: string)

  datatype Plan = Reject(message: string) | Submit(update: Update)

  /** The checks and the payload of `handleSave` (AdminDashbox.tsx:233-263). */
  function SavePlan(id: string, f: Form, now: string): Plan {
    if Trim(f.username) == "" then Reject(UsernameRequired)
    else if f.githubUrl != "" && !UrlOk(f.githubUrl) then Reject(BadGithub)
    else if f.linkedinUrl != "" && !UrlOk(f.linkedinUrl) then Reject(BadLinkedin)
    else Submit(Update(id, f.username, OrNull(f.githubUrl), OrNull(f.linkedinUrl), OrNull(f.avatarUrl), now))
  }

  /** The username is checked first, then the GitHub and the LinkedIn URL;
      empty URLs are not checked at all. */
  lemma SavePlanChecks(id: string, f: Form, now: string)
    ensures SavePlan(id, f, now) == Reject(UsernameRequired) <==> IsBlank(f.username)
    ensures SavePlan(id, f, now) == Reject(BadGithub) <==>
      !IsBlank(f.username) && f.githubUrl != "" && !UrlOk(f.githubUrl)
    ensures SavePlan(id, f, now) == Reject(BadLinkedin) <==>
      !IsBlank(f.username) && (f.githubUrl == "" || UrlOk(f.githubUrl))
      && f.linkedinUrl != "" && !UrlOk(f.linkedinUrl)
    ensures SavePlan(id, f, now).Submit? <==>
      !IsBlank(f.username) && (f.githubUrl == "" || UrlOk(f.githubUrl))
      && (f.linkedinUrl == "" || UrlOk(f.linkedinUrl))
  {
  }

  /** The username is sent as typed, not trimmed, and each empty field is
      sent as null, the others as typed. */
  lemma SavePlanPayload(id: string, f: Form, now: string)
    requires SavePlan(id, f, now).Submit?
    ensures var u := SavePlan(id, f, now).update;
      && u.id == id && u.username == f.username && u.updatedAt == now
      && (u.githubUrl.None? <==> f.githubUrl == "") && (u.githubUrl.Some? ==> u.githubUrl.value == f.githubUrl)
      && (u.linkedinUrl.None? <==> f.linkedinUrl == "") && (u.linkedinUrl.Some? ==> u.linkedinUrl.value == f.linkedinUrl)
      && (u.avatarUrl.None? <==> f.avatarUrl == "") && (u.avatarUrl.Some? ==> u.avatarUrl.value == f.avatarUrl)
  {
  }

  function AvatarMessage(v: Verdict): string {
    match v
    case TooLarge => "Avatar file size must be less than 5MB"
    case NotImage => "Please select an image file"
    case Unreadable => "Failed to load image for validation"
    case TooSmall => "Image must be at least 300x300 pixels"
    case NotSquare => "Image must have a 1:1 aspect ratio (square)"
    case Passed => ""
  }

  /** What loading the admin's row gave: the row, or an error with the
      message of the `Error` thrown, if it was one. */
  datatype Load = Loaded(row: AdminRow) | LoadFailed(message: Option<string>)

  /** What saving gave: the row written back, or an error. */
  datatype Saved = SavedRow(row: AdminRow) | SaveFailed(message: Option<string>)

  /** The fields of an admin session, a JSON object of string fields. */
  type Session = map<string, string>

  /** The non-empty text stored under `admin_session`: one that parses to a
      JSON object, or one that makes `JSON.parse` or the `name` assignment
      throw (not JSON, or `null`, a number, a string), with the message of
      that exception. */
  datatype Stored = SessionObject(fields: Session) | NotObject(thrown: string)

  /** The component's state; `navAvatar` is the avatar shown in the navigation. */
  class Dashbox {
    var admin: Option<AdminRow>
    var form: Form
    var isEditing: bool
    var error: string
    var navAvatar: string
    var session: Option<Stored>

    constructor (navAvatar: string, session: Option<Stored>)
      ensures admin.None? && form == Form("", "", "", "") && !isEditing && error == ""
      ensures this.navAvatar == navAvatar && this.session == session
    {
      admin := None;
      form := Form("", "", "", "");
      isEditing := false;
      error := "";
      this.navAvatar := navAvatar;
      this.session := session;
    }

    /** `loadAdminData` once the row has been fetched (AdminDashbox.tsx:78-119). */
    method LoadAdminData(result: Load)
      modifies this
      ensures result.Loaded? ==> admin == Some(result.row) && form == FormFrom(result.row) && error == ""
      ensures result.LoadFailed? ==>
        admin == old(admin) && form == old(form)
        && error == (if result.message.Some? then result.message.value else "Failed to load admin data")
      ensures isEditing == old(isEditing) && navAvatar == old(navAvatar) && session == old(session)
    {
      error := "";
      match result {
        case Loaded(row) =>
          admin := Some(row);
          form := FormFrom(row);
        case LoadFailed(message) =>
          error := if message.Some? then message.value else "Failed to load admin data";
      }
    }

    /** A field of the form edited. */
    method SetForm(f: Form)
      modifies this
      ensures form == f
      ensures admin == old(admin) && isEditing == old(isEditing) && error == old(error)
      ensures navAvatar == old(navAvatar) && session == old(session)
    {
      form := f;
    }

    /** `handleAvatarChange` (AdminDashbox.tsx:165-213). `file` is the picked
        file, `dims` the decoded size, and `upload` what the storage answers
        when the image passes; it returns whether an upload was made. */
    method HandleAvatarChange(file: Option<Picked>, dims: Option<(nat, nat)>, upload: Upload)
      returns (uploaded: bool)
      modifies this
      ensures uploaded <==> file.Some? && admin.Some? && Check(file.value, dims) == Passed
      ensures file.Some? && admin.Some? && Check(file.value, dims) != Passed ==>
        error == AvatarMessage(Check(file.value, dims)) && form == old(form)
      ensures uploaded && upload.Uploaded? && upload.url != "" ==>
        form == old(form).(avatarUrl := upload.url) && error == old(error)
      ensures uploaded && upload.Uploaded? && upload.url == "" ==> form == old(form) && error == old(error)
      ensures uploaded && upload.UploadFailed? ==>
        form == old(form) && error == "Failed to upload avatar" + upload.detail
      ensures !(file.Some? && admin.Some?) ==> form == old(form) && error == old(error)
      ensures admin == old(admin) && isEditing == old(isEditing) && navAvatar == old(navAvatar)
      ensures session == old(session)
    {
      uploaded := false;
      if file.None? || admin.None? {
        return;
      }
      var v := Check(file.value, dims);
      if v != Passed {
        error := AvatarMessage(v);
        return;
      }
      uploaded := true;
      match upload {
        case Uploaded(url) =>
          if url != "" {
            form := form.(avatarUrl := url);
          }
        case UploadFailed(detail) =>
          error := "Failed to upload avatar" + detail;
      }
    }

    /** `handleEdit` (AdminDashbox.tsx:215-228): cancelling an edit resets
        the form from the stored row. */
    method HandleEdit()
      modifies this
      ensures isEditing == !old(isEditing) && error == ""
      ensures old(isEditing) && admin.Some? ==> form == FormFrom(admin.value)
      ensures !(old(isEditing) && admin.Some?) ==> form == old(form)
      ensures admin == old(admin) && navAvatar == old(navAvatar) && session == old(session)
    {
      var wasEditing := isEditing;
      isEditing := !isEditing;
      error := "";
      if wasEditing && admin.Some? {
        form := FormFrom(admin.value);
      }
    }

    /** `handleSave` (AdminDashbox.tsx:230-291). It returns the update it
        sent, if any; `result` is what the database answered. A stored session
        that does not parse to an object throws after the admin, the editing
        flag and the navigation avatar were set, and its message shows. */
    method HandleSave(now: string, result: Saved) returns (sent: Option<Update>)
      modifies this
      ensures old(admin).None? ==> sent.None? && error == old(error) && admin == old(admin)
                                   && isEditing == old(isEditing) && session == old(session)
      ensures old(admin).Some? ==>
        var p := SavePlan(old(admin).value.id, old(form), now);
        && (p.Reject? ==> sent.None? && error == p.message && admin == old(admin)
                          && isEditing == old(isEditing) && session == old(session))
        && (p.Submit? ==> sent == Some(p.update))
      ensures sent.Some? && result.SavedRow? ==>
        && admin == Some(result.row) && !isEditing && navAvatar == old(form).avatarUrl
        && (old(session).None? ==> session == old(session) && error == "")
        && (old(session).Some? && old(session).value.SessionObject? ==>
              session == Some(SessionObject(old(session).value.fields["name" := old(form).username])) && error == "")
        && (old(session).Some? && old(session).value.NotObject? ==>
              session == old(session) && error == old(session).value.thrown)
      ensures sent.Some? && result.SaveFailed? ==>
        && admin == old(admin) && isEditing == old(isEditing) && session == old(session)
        && navAvatar == old(navAvatar)
        && error == (if result.message.Some? then result.message.value else SaveFailedDefault)
      ensures sent.None? ==> navAvatar == old(navAvatar)
      ensures form == old(form)
    {
      sent := None;
      if admin.None? {
        return;
      }
      if Trim(form.username) == "" {
        error := UsernameRequired;
        return;
      }
      if form.githubUrl != "" && !UrlOk(form.githubUrl) {
        error := BadGithub;
        return;
      }
      if form.linkedinUrl != "" && !UrlOk(form.linkedinUrl) {
        error := BadLinkedin;
        return;
      }
      error := "";
      var update := Update(admin.value.id, form.username, OrNull(form.githubUrl), OrNull(form.linkedinUrl),
                           OrNull(form.avatarUrl), now);
      sent := Some(update);
      match result {
        case SavedRow(row) =>
          admin := Some(row);
          isEditing := false;
          navAvatar := form.avatarUrl;
          match session {
            case None =>
            case Some(SessionObject(sessionData)) =>
              sessionData := sessionData["name" := form.username];
              session := Some(SessionObject(sessionData));
            case Some(NotObject(thrown)) =>
              error := thrown;
          }
        case SaveFailed(message) =>
          error := if message.Some? then message.value else SaveFailedDefault;
      }
    }
  }

  /** Saving rewrites only the `name` field of the stored session. */
  lemma SessionNameOnly(s: Session, username: string)
    ensures var t := s["name" := username];
      && t["name"] == username && t.Keys == s.Keys + {"name"}
      && forall k :: k in s && k != "name" ==> t[k] == s[k]
  {
  }
}
