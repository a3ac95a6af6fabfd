/**
 * The avatar picker's default selection
 * (src/components/personas/avatar-picker.tsx). Its hash is the same loop as
 * the one in `Avatars`, so it is not written twice; only the file extension
 * of the options differs.
 */
module AvatarPicker {
  import opened Wrappers
  import Avatars
  import Text

  /** `AVATAR_OPTIONS`: `avatar-01.svg` … `avatar-30.svg`. */
  function AvatarOptions(): (options: seq<string>)
    ensures |options| == 30
  {
    Avatars.AvatarOptions(".svg")
  }

  /** The options run from `avatar-01.svg` to `avatar-30.svg`. */
  lemma AvatarOptionsEnds()
    ensures AvatarOptions()[0] == "avatar-01.svg" && AvatarOptions()[29] == "avatar-30.svg"
  {
    Avatars.FirstAvatarFileName(".svg");
    LastAvatarFileName();
  }

  lemma LastAvatarFileName()
    ensures Avatars.AvatarFileName(29, ".svg") == "avatar-30.svg"
  {
    Avatars.AvatarFileNameDigits(29, ".svg");
    assert [Text.DigitChar(3), Text.DigitChar(0)] == "30";
  }

  /** No two options are the same file. */
  lemma AvatarOptionsDistinct()
    ensures forall i, j :: 0 <= i < j < 30 ==> AvatarOptions()[i] != AvatarOptions()[j]
  {
    forall i, j | 0 <= i < j < 30 ensures AvatarOptions()[i] != AvatarOptions()[j] {
      Avatars.AvatarFileNamesDistinct(i, j, ".svg");
    }
  }

  /** `getDefaultAvatar`: `/avatars/` and the option the name's hash picks. */
  function GetDefaultAvatar(personaName: string): (url: string)
    ensures url == "/avatars/" + AvatarOptions()[Avatars.AvatarIndex(personaName)]
  {
    var options := AvatarOptions();
    "/avatars/" + options[Avatars.StringHash(personaName) % |options|]
  }

  /** `value || defaultAvatar`. */
  function SelectedAvatar(value: Option<string>, personaName: string): (url: string)
    ensures Avatars.Truthy(value) ==> url == value.value
    ensures !Avatars.Truthy(value) ==> url == GetDefaultAvatar(personaName)
  {
    if Avatars.Truthy(value) then value.value else GetDefaultAvatar(personaName)
  }

  /**
   * The value reported through `onChange` while rendering: the default, when
   * no value is set and a name is.
   */
  function ReportedDefault(value: Option<string>, personaName: string): (reported: Option<string>)
    ensures reported.Some? <==> !Avatars.Truthy(value) && personaName != ""
    ensures reported.Some? ==> reported.value == GetDefaultAvatar(personaName)
  {
    var selected := SelectedAvatar(value, personaName);
    if !Avatars.Truthy(value) && personaName != "" && Some(selected) != value then Some(selected)
    else None
  }

  /** The picker and `getPersonaAvatarUrl` pick the same position for a name. */
  lemma SameAvatarAsFallback(personaName: string)
    ensures var d := [Text.DigitChar((Avatars.AvatarIndex(personaName) + 1) / 10),
                      Text.DigitChar((Avatars.AvatarIndex(personaName) + 1) % 10)];
            GetDefaultAvatar(personaName) == "/avatars/avatar-" + d + ".svg" &&
            Avatars.GetPersonaAvatarUrl(personaName, None) == "/avatars/avatar-" + d + ".webp"
  {
    var i := Avatars.AvatarIndex(personaName);
    Avatars.AvatarUrlDigits(i, ".svg");
    Avatars.AvatarUrlDigits(i, ".webp");
  }

  /** With no name the first avatar is selected. */
  lemma EmptyNameSelectsFirst(value: Option<string>)
    requires !Avatars.Truthy(value)
    ensures SelectedAvatar(value, "") == "/avatars/avatar-01.svg"
  {
    Avatars.EmptyNameAvatar();
    Avatars.FirstAvatarFileName(".svg");
    assert "/avatars/" + "avatar-01.svg" == "/avatars/avatar-01.svg";
  }
}
