/** The admin's settings panel (src/components/admin/AdminSettings.tsx): the
    profile form with its readme, avatar replacement, saving and signing out.
    The database, the image decoder and the sign-out request are inputs. */
module AdminSettings {
  import opened Str
  import opened Avatar

  /** The row selected for the form (AdminSettings.tsx:47-51). */
  datatype ProfileRow = ProfileRow(username: Option<string>, githubUrl: Option<string>,
                                   linkedinUrl: Option<string>, readme: Option<string>,
                                   avatarUrl: Option<string>)

  datatype Form = Form(username: string, githubUrl: string, linkedinUrl: string,
                       readme: string, avatarUrl: string)

  const EmptyForm: Form := Form("", "", "", "", "")

  /** The form filled from the row (AdminSettings.tsx:53-59). */
  function FormFrom(r: ProfileRow): Form {
    Form(OrEmpty(r.username), OrEmpty(r.githubUrl), OrEmpty(r.linkedinUrl), OrEmpty(r.readme),
         OrEmpty(r.avatarUrl))
  }

  /** Each field is the row's value, or empty when the row's is null or empty. */
  lemma FormFromFields(r: ProfileRow)
    ensures var f := FormFrom(r);
      && (Truthy(r.username) ==> f.username == r.username.value) && (!Truthy(r.username) ==> f.username == "")
      && (Truthy(r.githubUrl) ==> f.githubUrl == r.githubUrl.value) && (!Truthy(r.githubUrl) ==> f.githubUrl == "")
      && (Truthy(r.linkedinUrl) ==> f.linkedinUrl == r.linkedinUrl.value) && (!Truthy(r.linkedinUrl) ==> f.linkedinUrl == "")
      && (Truthy(r.readme) ==> f.readme == r.readme.value) && (!Truthy(r.readme) ==> f.readme == "")
      && (Truthy(r.avatarUrl) ==> f.avatarUrl == r.avatarUrl.value) && (!Truthy(r.avatarUrl) ==> f.avatarUrl == "")
  {
  }

  const UsernameRequired: string := "Username required"
  const LoadFailed: string := "Could not load admin profile."
  const SaveFailed: string := "Failed to save changes."
  const UploadFailedMessage: string := "Failed to upload avatar."

  datatype Update = Update(id: string, username: string, githubUrl: Option<string>,
                           linkedinUrl: Option<string>, readme: Option<string>,
                           avatarUrl: Option<string>, updatedAt: string)

  datatype Plan = Reject(message: string) | Submit(update: Update)

  /** The check and the payload of `handleSave` (AdminSettings.tsx:137-155):
      only the username is checked, and no URL. */
  function SavePlan(id: string, f: Form, now: string): Plan {
    if Trim(f.username) == "" then Reject(UsernameRequired)
    else Submit(Update(id, f.username, OrNull(f.githubUrl), OrNull(f.linkedinUrl), OrNull(f.readme),
                       OrNull(f.avatarUrl), now))
  }

  /** A save goes out exactly when the username is not blank; it carries the
      username as typed and every other field as typed, or null when empty. */
  lemma SavePlanSpec(id: string, f: Form, now: string)
    ensures SavePlan(id, f, now) == Reject(UsernameRequired) <==> IsBlank(f.username)
    ensures SavePlan(id, f, now).Submit? <==> !IsBlank(f.username)
    ensures SavePlan(id, f, now).Submit? ==>
      var u := SavePlan(id, f, now).update;
      && u.id == id && u.username == f.username && u.updatedAt == now
      && (u.githubUrl.None? <==> f.githubUrl == "") && (u.githubUrl.Some? ==> u.githubUrl.value == f.githubUrl)
      && (u.linkedinUrl.None? <==> f.linkedinUrl == "") && (u.linkedinUrl.Some? ==> u.linkedinUrl.value == f.linkedinUrl)
      && (u.readme.None? <==> f.readme == "") && (u.readme.Some? ==> u.readme.value == f.readme)
      && (u.avatarUrl.None? <==> f.avatarUrl == "") && (u.avatarUrl.Some? ==> u.avatarUrl.value == f.avatarUrl)
  {
  }

  function AvatarMessage(v: Verdict): string {
    match v
    case TooLarge => "Max file size is 5MB."
    case NotImage => "File must be an image."
    case Unreadable => "Invalid image."
    case TooSmall => "Min size is 300x300px."
    case NotSquare => "Image must be square."
    case Passed => ""
  }

  /** The answer to the sign-out request. */
  datatype Response = Response(ok: bool, redirected: bool, status: int)

  /** The request's outcome counts as signed out (AdminSettings.tsx:179). */
  predicate SignedOut(res: Response) {
    res.ok || res.redirected || res.status == 302
  }

  /** A 302, a redirect or any 2xx answer signs the admin out; any other
      answer, such as a 500 that was not redirected, does not. */
  lemma SignedOutCases()
    ensures SignedOut(Response(false, false, 302))
    ensures SignedOut(Response(false, true, 500))
    ensures SignedOut(Response(true, false, 200))
    ensures !SignedOut(Response(false, false, 500))
    ensures !SignedOut(Response(false, false, 301))
  {
  }

  /** The component's state. `admin` is the signed-in user's id, `navAvatar`
      the avatar the navigation shows. */
  class Settings {
    var admin: Option<string>
    var form: Form
    var isEditing: bool
    var error: string
    var navAvatar: string

    constructor (admin: Option<string>, navAvatar: string)
      ensures this.admin == admin && this.navAvatar == navAvatar
      ensures form == EmptyForm && !isEditing && error == ""
    {
      this.admin := admin;
      this.navAvatar := navAvatar;
      form := EmptyForm;
      isEditing := false;
      error := "";
    }

    /** The profile fetch (AdminSettings.tsx:44-70); `row` is `None` when the
        query failed or threw. It runs only for an admin with an id. */
    method FetchAdminData(row: Option<ProfileRow>)
      modifies this
      ensures admin.None? || admin.value == "" ==> form == old(form) && error == old(error) && navAvatar == old(navAvatar)
      ensures Truthy(admin) && row.Some? ==>
        form == FormFrom(row.value) && navAvatar == OrEmpty(row.value.avatarUrl) && error == old(error)
      ensures Truthy(admin) && row.None? ==> form == old(form) && navAvatar == old(navAvatar) && error == LoadFailed
      ensures admin == old(admin) && isEditing == old(isEditing)
    {
      if admin.None? || admin.value == "" {
        return;
      }
      match row {
        case Some(data) =>
          form := FormFrom(data);
          navAvatar := OrEmpty(data.avatarUrl);
        case None =>
          error := LoadFailed;
      }
    }

    /** A field of the form edited. */
    method SetForm(f: Form)
      modifies this
      ensures form == f
      ensures admin == old(admin) && isEditing == old(isEditing) && error == old(error) && navAvatar == old(navAvatar)
    {
      form := f;
    }

    /** The Edit / Cancel button (AdminSettings.tsx:234): unlike the profile
        box, cancelling keeps what was typed. */
    method ToggleEdit()
      modifies this
      ensures isEditing == !old(isEditing)
      ensures admin == old(admin) && form == old(form) && error == old(error) && navAvatar == old(navAvatar)
    {
      isEditing := !isEditing;
    }

    /** `handleAvatarChange` with `uploadAvatar` (AdminSettings.tsx:91-135).
        It returns whether an upload was made. */
    method HandleAvatarChange(file: Option<Picked>, dims: Option<(nat, nat)>, upload: Upload)
      returns (uploaded: bool)
      modifies this
      ensures uploaded <==> file.Some? && Check(file.value, dims) == Passed
      ensures file.Some? && !uploaded ==> error == AvatarMessage(Check(file.value, dims)) && form == old(form)
      ensures uploaded && upload.Uploaded? && upload.url != "" ==>
        form == old(form).(avatarUrl := upload.url) && error == old(error)
      ensures uploaded && upload.Uploaded? && upload.url == "" ==> form == old(form) && error == old(error)
      ensures uploaded && upload.UploadFailed? ==> form == old(form) && error == UploadFailedMessage
      ensures file.None? ==> form == old(form) && error == old(error)
      ensures admin == old(admin) && isEditing == old(isEditing) && navAvatar == old(navAvatar)
    {
      uploaded := false;
      if file.None? {
        return;
      }
      var v := Check(file.value, dims);
      if v != Passed {
        error := AvatarMessage(v);
        return;
      }
      uploaded := true;
      match upload {
        case Uploaded(url) =>
          if url != "" {
            form := form.(avatarUrl := url);
          }
        case UploadFailed(_) =>
          error := UploadFailedMessage;
      }
    }

    /** `handleSave` (AdminSettings.tsx:137-168); `ok` is whether the update
        succeeded. The row written is the signed-in admin's, whose `User` prop
        is never null (AdminSettings.tsx:9). A success does not clear an
        earlier error message. */
    method HandleSave(now: string, ok: bool) returns (sent: Option<Update>)
      requires admin.Some?
      modifies this
      ensures var p := SavePlan(old(admin).value, old(form), now);
        && (p.Reject? ==> sent.None? && error == p.message && isEditing == old(isEditing)
                          && navAvatar == old(navAvatar))
        && (p.Submit? ==> sent == Some(p.update))
      ensures sent.Some? && ok ==> navAvatar == old(form).avatarUrl && !isEditing && error == old(error)
      ensures sent.Some? && !ok ==> navAvatar == old(navAvatar) && isEditing == old(isEditing) && error == SaveFailed
      ensures admin == old(admin) && form == old(form)
    {
      sent := None;
      if Trim(form.username) == "" {
        error := UsernameRequired;
        return;
      }
      var update := Update(admin.value, form.username, OrNull(form.githubUrl), OrNull(form.linkedinUrl),
                           OrNull(form.readme), OrNull(form.avatarUrl), now);
      sent := Some(update);
      if ok {
        navAvatar := form.avatarUrl;
        isEditing := false;
      } else {
        error := SaveFailed;
      }
    }

    /** `handleLogout` (AdminSettings.tsx:170-185); `res` is `None` when the
        request threw, which leaves the admin signed in. */
    method HandleLogout(res: Option<Response>)
      modifies this
      ensures admin == (if res.Some? && SignedOut(res.value) then None else old(admin))
      ensures form == old(form) && isEditing == old(isEditing) && error == old(error) && navAvatar == old(navAvatar)
    {
      if res.Some? && (res.value.ok || res.value.redirected || res.value.status == 302) {
        admin := None;
      }
    }
  }
}
