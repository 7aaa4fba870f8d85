/**
 * The profile app: the business and personal profile records with their
 * column bounds, the two avatar validators, the rule by which saving a
 * personal profile deletes its previous avatar, the get_or_create that gives
 * each user one profile of each kind, and the avatar initial and colour.
 */
module Profiles {
  import opened Wrappers
  import opened Text
  import opened Users
  import opened Images

  // ---------------------------------------------------------------------------
  // The records and their column bounds

  datatype BusinessProfile = BusinessProfile(
    user: UserId,
    companyName: string,
    industry: string,
    description: Option<string>,
    streetAddress: Option<string>,
    city: string,
    state: string,
    zipCode: string,
    country: string,
    websiteUrl: string,
    contactPhone: string,
    contactEmail: string,
    logo: Option<string>,
    createdAt: int)

  /** The max_length of each bounded column of a business profile. */
  predicate BusinessProfileFits(p: BusinessProfile)
  {
    && |p.companyName| <= 255
    && |p.industry| <= 100
    && (p.streetAddress.Some? ==> |p.streetAddress.value| <= 255)
    && |p.city| <= 100
    && |p.state| <= 100
    && |p.zipCode| <= 20
    && |p.country| <= 100
    && |p.contactPhone| <= 50
    && (p.logo.Some? ==> |p.logo.value| <= 200)
  }

  /** A business profile as get_or_create makes it: every blank column empty, created now. */
  function BlankBusinessProfile(user: UserId, now: int): (p: BusinessProfile)
    ensures p.user == user && p.createdAt == now
    ensures BusinessProfileFits(p)
    ensures p.companyName == "" && p.logo.None? && p.description.None?
  {
    BusinessProfile(user, "", "", None, None, "", "", "", "", "", "", "", None, now)
  }

  /** The avatar is the stored file's name, None when null. */
  datatype UserProfile = UserProfile(user: UserId, displayName: string, tagline: string, bio: string, avatar: Option<string>)

  /** display_name holds at most 100 characters and tagline at most 200. */
  predicate UserProfileFits(p: UserProfile)
  {
    |p.displayName| <= 100 && |p.tagline| <= 200
  }

  function BlankUserProfile(user: UserId): (p: UserProfile)
    ensures p.user == user && UserProfileFits(p) && p.avatar.None?
  {
    UserProfile(user, "", "", "", None)
  }

  function BusinessOwner(p: BusinessProfile): UserId { p.user }
  function ProfileOwner(p: UserProfile): UserId { p.user }

  // ---------------------------------------------------------------------------
  // The avatar validators

  datatype AvatarError = AvatarTooLarge | AvatarUnsupportedFormat

  /** validate_image_size: more than 5 MiB is refused; up to and including 5 MiB passes. */
  function ValidateImageSize(image: Upload): (r: Option<AvatarError>)
    ensures r.Some? <==> image.size > 5 * 1024 * 1024
    ensures r.Some? ==> r.value == AvatarTooLarge
  {
    var maxSize := 5 * 1024 * 1024;
    if image.size > maxSize then Some(AvatarTooLarge) else None
  }

  /** validate_image_format: a content type, when the upload has one, must be one of the four image types. */
  function ValidateImageFormat(image: Upload): (r: Option<AvatarError>)
    ensures r.Some? <==> image.contentType.Some? && image.contentType.value !in AllowedContentTypes
    ensures r.Some? ==> r.value == AvatarUnsupportedFormat
  {
    var validFormats := ["image/jpeg", "image/png", "image/gif", "image/webp"];
    if image.contentType.Some? && image.contentType.value !in validFormats then Some(AvatarUnsupportedFormat) else None
  }

  /**
   * The avatar field runs both validators and reports every error they raise,
   * so an oversized file of the wrong type gets both errors.
   */
  function ValidateAvatar(image: Upload): (errors: seq<AvatarError>)
    ensures AvatarTooLarge in errors <==> TooLarge(image)
    ensures AvatarUnsupportedFormat in errors <==> BadFormat(image)
    ensures errors == [] <==> !TooLarge(image) && !BadFormat(image)
  {
    var size := ValidateImageSize(image);
    var format := ValidateImageFormat(image);
    (if size.Some? then [size.value] else []) + (if format.Some? then [format.value] else [])
  }

  // ---------------------------------------------------------------------------
  // get_or_create on a one-to-one table

  /** The one-to-one user column: no two rows name the same user. */
  predicate OneRowPerUser<R>(rows: map<nat, R>, ownerOf: R -> UserId)
  {
    forall i, j :: i in rows && j in rows && ownerOf(rows[i]) == ownerOf(rows[j]) ==> i == j
  }

  predicate HasRowOf<R>(rows: map<nat, R>, ownerOf: R -> UserId, user: UserId)
  {
    exists k :: k in rows && ownerOf(rows[k]) == user
  }

  /**
   * get_or_create(user=...): the user's row when there is one, with the
   * table unchanged; otherwise blank is inserted under the next key. The
   * result is the new table, the next key and the key of the user's row.
   */
  function GetOrCreate<R>(rows: map<nat, R>, nextId: nat, ownerOf: R -> UserId, user: UserId, blank: R): (r: (map<nat, R>, nat, nat))
    requires OneRowPerUser(rows, ownerOf)
    requires ownerOf(blank) == user
    ensures r.2 in r.0 && ownerOf(r.0[r.2]) == user
    ensures HasRowOf(rows, ownerOf, user) ==> r.0 == rows && r.1 == nextId
    ensures !HasRowOf(rows, ownerOf, user) ==> r.0 == rows[nextId := blank] && r.1 == nextId + 1 && r.2 == nextId
  {
    if HasRowOf(rows, ownerOf, user) then
      var k :| k in rows && ownerOf(rows[k]) == user;
      (rows, nextId, k)
    else (rows[nextId := blank], nextId + 1, nextId)
  }

  /** After get_or_create the user has exactly one row, and the table keeps one row per user. */
  lemma {:induction false} GetOrCreateGivesOneRow<R>(rows: map<nat, R>, nextId: nat, ownerOf: R -> UserId, user: UserId, blank: R)
    requires OneRowPerUser(rows, ownerOf) && ownerOf(blank) == user
    requires forall k :: k in rows ==> k < nextId
    ensures var r := GetOrCreate(rows, nextId, ownerOf, user, blank);
      && OneRowPerUser(r.0, ownerOf)
      && (forall k :: k in r.0 ==> k < r.1)
      && (forall k :: k in r.0 && ownerOf(r.0[k]) == user ==> k == r.2)
  {
    var r := GetOrCreate(rows, nextId, ownerOf, user, blank);
    if !HasRowOf(rows, ownerOf, user) {
      forall i, j | i in r.0 && j in r.0 && ownerOf(r.0[i]) == ownerOf(r.0[j]) ensures i == j {
        if i != nextId && j != nextId {
          assert r.0[i] == rows[i] && r.0[j] == rows[j];
        }
      }
    }
  }

  /** A second get_or_create for the same user returns the same row and changes nothing. */
  lemma {:induction false} GetOrCreateTwiceIsOnce<R>(rows: map<nat, R>, nextId: nat, ownerOf: R -> UserId, user: UserId, blank: R)
    requires OneRowPerUser(rows, ownerOf) && ownerOf(blank) == user
    requires forall k :: k in rows ==> k < nextId
    ensures var r := GetOrCreate(rows, nextId, ownerOf, user, blank);
      GetOrCreate(r.0, r.1, ownerOf, user, blank) == r
  {
    var r := GetOrCreate(rows, nextId, ownerOf, user, blank);
    GetOrCreateGivesOneRow(rows, nextId, ownerOf, user, blank);
    assert HasRowOf(r.0, ownerOf, user);
  }

  // ---------------------------------------------------------------------------
  // UserProfile.save

  /** A stored file name is truthy when it is present and not empty. */
  predicate HasFile(name: Option<string>)
  {
    name.Some? && name.value != ""
  }

  /** The personal profile table, and the avatar files deleted so far, in order. */
  datatype ProfileTable = ProfileTable(rows: map<nat, UserProfile>, nextId: nat, deletedAvatars: seq<string>)

  datatype SaveError = DoesNotExist | IntegrityError

  /**
   * UserProfile.save for an instance with primary key pk (None before the
   * first save). With a non-zero pk the stored row is read first (a pk
   * without a row raises DoesNotExist) and its avatar is deleted when it has
   * one and the new avatar differs; then the row is written, which the
   * one-to-one user column refuses when another row belongs to the same
   * user. The avatar deletion is not undone by that refusal.
   */
  function Save(t: ProfileTable, pk: Option<nat>, p: UserProfile): (r: (ProfileTable, Result<nat, SaveError>))
    ensures pk.Some? && pk.value != 0 && pk.value !in t.rows ==> r == (t, Err(DoesNotExist))
    ensures r.1 == Err(DoesNotExist) <==> pk.Some? && pk.value != 0 && pk.value !in t.rows
    ensures |r.0.deletedAvatars| <= |t.deletedAvatars| + 1
    ensures r.0.deletedAvatars != t.deletedAvatars <==>
      pk.Some? && pk.value != 0 && pk.value in t.rows && HasFile(t.rows[pk.value].avatar) && p.avatar != t.rows[pk.value].avatar
    ensures r.0.deletedAvatars != t.deletedAvatars ==> r.0.deletedAvatars == t.deletedAvatars + [t.rows[pk.value].avatar.value]
    ensures r.1.Ok? ==> r.0.rows == t.rows[r.1.value := p]
    ensures r.1.Ok? && pk.Some? ==> r.1.value == pk.value && r.0.nextId == t.nextId
    ensures r.1.Ok? && pk.None? ==> r.1.value == t.nextId && r.0.nextId == t.nextId + 1
    ensures r.1 == Err(IntegrityError) <==>
      && !(pk.Some? && pk.value != 0 && pk.value !in t.rows)
      && exists k :: k in t.rows && t.rows[k].user == p.user && k != (if pk.Some? then pk.value else t.nextId)
    ensures r.1.Ok? <==>
      && !(pk.Some? && pk.value != 0 && pk.value !in t.rows)
      && !exists k :: k in t.rows && t.rows[k].user == p.user && k != (if pk.Some? then pk.value else t.nextId)
    ensures r.1.Err? ==> r.0.rows == t.rows && r.0.nextId == t.nextId
  {
    if pk.Some? && pk.value != 0 && pk.value !in t.rows then (t, Err(DoesNotExist))
    else
      var deleted :=
        if pk.Some? && pk.value != 0 && HasFile(t.rows[pk.value].avatar) && p.avatar != t.rows[pk.value].avatar
        then t.deletedAvatars + [t.rows[pk.value].avatar.value]
        else t.deletedAvatars;
      var target := if pk.Some? then pk.value else t.nextId;
      if exists k :: k in t.rows && t.rows[k].user == p.user && k != target then
        (t.(deletedAvatars := deleted), Err(IntegrityError))
      else
        (ProfileTable(t.rows[target := p], if pk.Some? then t.nextId else t.nextId + 1, deleted), Ok(target))
  }

  /** What every save keeps: one row per user and keys below the next key. */
  predicate ProfileTableKeyed(t: ProfileTable)
  {
    && OneRowPerUser(t.rows, ProfileOwner)
    && t.nextId > 0
    && (forall k :: k in t.rows ==> k < t.nextId)
  }

  /** A keyed table whose rows are also within their column bounds. */
  predicate ProfileTableValid(t: ProfileTable)
  {
    && ProfileTableKeyed(t)
    && (forall k :: k in t.rows ==> UserProfileFits(t.rows[k]))
  }

  /** Any save, of any row and whatever its outcome, keeps one row per user and the keys below the next key. */
  lemma {:induction false} SaveKeepsKeyed(t: ProfileTable, pk: Option<nat>, p: UserProfile)
    requires ProfileTableKeyed(t)
    ensures ProfileTableKeyed(Save(t, pk, p).0)
  {
    var r := Save(t, pk, p);
    if r.1.Ok? {
      var target := r.1.value;
      forall i, j | i in r.0.rows && j in r.0.rows && ProfileOwner(r.0.rows[i]) == ProfileOwner(r.0.rows[j]) ensures i == j {
        if i != target && j != target {
          assert r.0.rows[i] == t.rows[i] && r.0.rows[j] == t.rows[j];
        }
      }
    }
  }

  /** Saving a row within its bounds keeps the table valid, whatever the outcome. */
  lemma {:induction false} SaveKeepsValid(t: ProfileTable, pk: Option<nat>, p: UserProfile)
    requires ProfileTableValid(t) && UserProfileFits(p)
    ensures ProfileTableValid(Save(t, pk, p).0)
  {
    SaveKeepsKeyed(t, pk, p);
  }

  /** Saving a profile with its avatar unchanged never deletes a file. */
  lemma {:induction false} SameAvatarKeepsFile(t: ProfileTable, pk: nat, p: UserProfile)
    requires pk in t.rows && p.avatar == t.rows[pk].avatar
    ensures Save(t, Some(pk), p).0.deletedAvatars == t.deletedAvatars
  {
  }

  /** Replacing an avatar on a saved profile deletes exactly the old file, once. */
  lemma {:induction false} NewAvatarDeletesOld(t: ProfileTable, pk: nat, p: UserProfile)
    requires pk != 0 && pk in t.rows && HasFile(t.rows[pk].avatar) && p.avatar != t.rows[pk].avatar
    ensures Save(t, Some(pk), p).0.deletedAvatars == t.deletedAvatars + [t.rows[pk].avatar.value]
  {
  }

  // ---------------------------------------------------------------------------
  // The avatar initial and colour

  /**
   * The initial shown in place of an avatar: the first character of the first
   * name, or of the user's string form when the first name is empty, upper-
   * cased. With both empty the indexing fails, and there is no initial.
   */
  function Initial(firstName: string, userString: string): (r: Option<char>)
    ensures r.None? <==> firstName == "" && userString == ""
    ensures r.Some? ==> !('a' <= r.value <= 'z')
    ensures firstName != "" ==> r.Some? && Lower(r.value) == Lower(firstName[0])
    ensures firstName == "" && userString != "" ==> r.Some? && Lower(r.value) == Lower(userString[0])
  {
    var source := if firstName != "" then firstName else userString;
    if source == "" then None else Some(Upper(source[0]))
  }

  const ColourClasses: seq<string> := [
    "bg-red-400", "bg-teal-400", "bg-blue-400", "bg-green-400", "bg-yellow-400",
    "bg-purple-400", "bg-cyan-400", "bg-amber-400", "bg-violet-400", "bg-sky-400"]

  /** The colour of an initial: its code point modulo the number of colours, always a valid index. */
  function ColourIndex(initial: char): (i: nat)
    ensures i < |ColourClasses|
    ensures (initial as int - i) % 10 == 0
  {
    (initial as int) % |ColourClasses|
  }

  function ColourClass(initial: char): (c: string)
    ensures c in ColourClasses
  {
    ColourClasses[ColourIndex(initial)]
  }

  /** Two names whose first letters differ only in case get the same initial and so the same colour. */
  lemma {:induction false} ColourIgnoresCase(first1: string, first2: string, userString: string)
    requires first1 != "" && first2 != "" && Lower(first1[0]) == Lower(first2[0])
    ensures Initial(first1, userString) == Initial(first2, userString)
  {
    var a, b := first1[0], first2[0];
    assert Upper(a) == Upper(b) by {
      if 'A' <= a <= 'Z' || 'a' <= a <= 'z' {
        assert 'A' <= b <= 'Z' || 'a' <= b <= 'z';
      }
    }
  }

  // ---------------------------------------------------------------------------
  // The profile views' tables

  class ProfileStore {
    var businessProfiles: map<nat, BusinessProfile>
    var nextBusinessId: nat
    var userProfiles: ProfileTable

    ghost predicate Valid()
      reads this
    {
      && OneRowPerUser(businessProfiles, BusinessOwner)
      && (forall k :: k in businessProfiles ==> k < nextBusinessId)
      && ProfileTableKeyed(userProfiles)
    }

    constructor ()
      ensures Valid()
      ensures businessProfiles == map[] && userProfiles.rows == map[] && userProfiles.deletedAvatars == []
    {
      businessProfiles, nextBusinessId := map[], 1;
      userProfiles := ProfileTable(map[], 1, []);
    }

    /** The business profile lookup of business_profile_view and business_logo. */
    method BusinessProfileFor(user: UserId, now: int) returns (id: nat)
      requires Valid()
      modifies this
      ensures Valid()
      ensures (businessProfiles, nextBusinessId, id)
           == GetOrCreate(old(businessProfiles), old(nextBusinessId), BusinessOwner, user, BlankBusinessProfile(user, now))
      ensures userProfiles == old(userProfiles)
    {
      GetOrCreateGivesOneRow(businessProfiles, nextBusinessId, BusinessOwner, user, BlankBusinessProfile(user, now));
      var r := GetOrCreate(businessProfiles, nextBusinessId, BusinessOwner, user, BlankBusinessProfile(user, now));
      businessProfiles, nextBusinessId, id := r.0, r.1, r.2;
    }

    /** The personal profile lookup of profile_customization_view. */
    method UserProfileFor(user: UserId) returns (id: nat)
      requires Valid()
      modifies this
      ensures Valid()
      ensures (userProfiles.rows, userProfiles.nextId, id)
           == GetOrCreate(old(userProfiles.rows), old(userProfiles.nextId), ProfileOwner, user, BlankUserProfile(user))
      ensures userProfiles.deletedAvatars == old(userProfiles.deletedAvatars)
      ensures businessProfiles == old(businessProfiles) && nextBusinessId == old(nextBusinessId)
    {
      var t := userProfiles;
      GetOrCreateGivesOneRow(t.rows, t.nextId, ProfileOwner, user, BlankUserProfile(user));
      var r := GetOrCreate(t.rows, t.nextId, ProfileOwner, user, BlankUserProfile(user));
      userProfiles := ProfileTable(r.0, r.1, t.deletedAvatars);
      id := r.2;
    }

    /**
     * UserProfile.save, for any row: neither save nor the profile form checks
     * the column lengths. Rows within their bounds keep the table within
     * bounds.
     */
    method SaveUserProfile(pk: Option<nat>, p: UserProfile) returns (result: Result<nat, SaveError>)
      requires Valid()
      modifies this
      ensures Valid()
      ensures ProfileTableValid(old(userProfiles)) && UserProfileFits(p) ==> ProfileTableValid(userProfiles)
      ensures (userProfiles, result) == Save(old(userProfiles), pk, p)
      ensures businessProfiles == old(businessProfiles) && nextBusinessId == old(nextBusinessId)
    {
      SaveKeepsKeyed(userProfiles, pk, p);
      if ProfileTableValid(userProfiles) && UserProfileFits(p) {
        SaveKeepsValid(userProfiles, pk, p);
      }
      var t := userProfiles;
      if pk.Some? && pk.value != 0 {
        if pk.value !in t.rows {
          return Err(DoesNotExist);
        }
        var stored := t.rows[pk.value];
        if HasFile(stored.avatar) && p.avatar != stored.avatar {
          userProfiles := userProfiles.(deletedAvatars := userProfiles.deletedAvatars + [stored.avatar.value]);
        }
      }
      var target := if pk.Some? then pk.value else t.nextId;
      if exists k :: k in t.rows && t.rows[k].user == p.user && k != target {
        return Err(IntegrityError);
      }
      userProfiles := userProfiles.(rows := t.rows[target := p], nextId := if pk.Some? then t.nextId else t.nextId + 1);
      result := Ok(target);
    }
  }
}
