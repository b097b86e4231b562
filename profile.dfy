/** The `authUser` getter: the signed-in person's profile with a fallback for
    every field the view shows. */
module AuthProfile {
  import opened Wrappers

  /** An entry of the profile's `image` list. */
  datatype Image = Image(contentUrl: Option<string>)

  /** The fields of an identity-provider profile the view reads; a missing
      field is `None`. */
  datatype Profile = Profile(name: Option<string>, description: Option<string>, image: Option<seq<Image>>)

  /** The identity provider's person object; its `_profile` may be missing. */
  datatype Person = Person(profile: Option<Profile>)

  /** What `authUser` returns. */
  datatype UserView = UserView(name: string, imageUrl: string, description: string)

  /** Reading a property of `null` or `undefined` throws a `TypeError`. */
  datatype Fault = TypeError

  const DefaultName: string := "noname"
  const DefaultDescription: string := "no description"
  const DefaultImageUrl: string :=
    "https://gaia.blockstack.org/hub/1KLzSLktx8xV35pR4z5maCBWQiVjG3sUef//avatar-0?0.7366012623625917"

  /** A string-valued field is truthy when present and not empty. */
  predicate Truthy(v: Option<string>)
    ensures Truthy(v) <==> v != None && v != Some("")
  {
    v.Some? && v.value != ""
  }

  /** `v || fallback`. */
  function Or(v: Option<string>, fallback: string): (r: string)
    ensures Truthy(v) ==> r == v.value
    ensures !Truthy(v) ==> r == fallback
  {
    if Truthy(v) then v.value else fallback
  }

  /** `profile.image && profile.image[0] && profile.image[0].contentUrl`,
      as an optional string. */
  function FirstImageUrl(p: Profile): (r: Option<string>)
    ensures r.Some? <==> p.image.Some? && |p.image.value| > 0 && p.image.value[0].contentUrl.Some?
    ensures r.Some? ==> r == p.image.value[0].contentUrl
  {
    match p.image
    case None => None
    case Some(images) => if images == [] then None else images[0].contentUrl
  }

  /** The view of a person, or the `TypeError` the getter throws when there is
      no person (`auth.person` is still `null`) or the person has no profile. */
  function AuthUser(person: Option<Person>): (r: Result<UserView, Fault>)
    ensures r.Failure? <==> person.None? || person.value.profile.None?
    ensures r.Success? ==>
      var p := person.value.profile.value;
      && r.value.name == (if Truthy(p.name) then p.name.value else DefaultName)
      && r.value.description == (if Truthy(p.description) then p.description.value else DefaultDescription)
      && r.value.imageUrl == (if Truthy(FirstImageUrl(p)) then FirstImageUrl(p).value else DefaultImageUrl)
  {
    match person
    case None => Failure(TypeError)
    case Some(who) =>
      match who.profile
      case None => Failure(TypeError)
      case Some(p) =>
        Success(UserView(Or(p.name, DefaultName), Or(FirstImageUrl(p), DefaultImageUrl), Or(p.description, DefaultDescription)))
  }

  /** Every field of the view has something to show. */
  lemma AuthUserNeverBlank(person: Option<Person>)
    requires AuthUser(person).Success?
    ensures AuthUser(person).value.name != ""
    ensures AuthUser(person).value.description != ""
    ensures AuthUser(person).value.imageUrl != ""
  {
  }

  /** A profile with an image whose first entry has a non-empty URL shows that
      URL; any other profile shows the default avatar. */
  lemma AuthUserImage(person: Person)
    requires person.profile.Some?
    ensures var p := person.profile.value;
      AuthUser(Some(person)).value.imageUrl ==
        if p.image.Some? && |p.image.value| > 0 && Truthy(p.image.value[0].contentUrl)
        then p.image.value[0].contentUrl.value else DefaultImageUrl
  {
  }
}
