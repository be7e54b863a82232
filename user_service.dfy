/**
 * The validation behind a profile update: a name is required and is stored
 * trimmed.
 */
module UserService {
  import opened Common

  /** The fields a profile update keeps. */
  datatype ProfileUpdate = ProfileUpdate(name: string)

  /** `processUserProfileUpdate`: a missing, empty or blank name is a bad
      request; otherwise the name trimmed. */
  function ProcessUserProfileUpdate(name: Option<string>): Result<ProfileUpdate> {
    if !TruthyString(name) || Trim(name.value) == "" then Err(BadRequest)
    else Ok(ProfileUpdate(Trim(name.value)))
  }

  /** The update is refused exactly for a missing name or one made only of
      whitespace; an accepted name is a nonempty piece of the given one
      with no whitespace at either end. */
  lemma UpdateMeans(name: Option<string>)
    ensures ProcessUserProfileUpdate(name).Err? <==>
      name.None? || forall i :: 0 <= i < |name.value| ==> IsWhitespace(name.value[i])
    ensures ProcessUserProfileUpdate(name).Err? ==> ProcessUserProfileUpdate(name).error == BadRequest
    ensures ProcessUserProfileUpdate(name).Ok? ==>
      var r := ProcessUserProfileUpdate(name).value.name;
      && r != "" && !IsWhitespace(r[0]) && !IsWhitespace(r[|r| - 1])
      && exists i :: OccursAt(name.value, r, i)
  {
    if name.Some? {
      TrimEmptyIffBlank(name.value);
      TrimmedPiece(name.value);
      if Trim(name.value) != "" {
        TrimmedEnds(name.value);
      }
    }
  }

  /** The trimmed string sits inside the original. */
  lemma TrimmedPiece(s: string)
    ensures OccursAt(s, Trim(s), |s| - |TrimStart(s)|)
  {
    var u := TrimStart(s);
    var r := TrimEnd(u);
    var i := |s| - |u|;
    assert u == s[i..] && r == u[..|r|];
    assert i + |r| <= |s|;
    assert s[i..i + |r|] == r by {
      assert s[i..][..|r|] == s[i..i + |r|];
    }
    assert OccursAt(s, r, i);
  }

  /** A nonempty trimmed string has no whitespace at either end. */
  lemma TrimmedEnds(s: string)
    requires Trim(s) != ""
    ensures !IsWhitespace(Trim(s)[0]) && !IsWhitespace(Trim(s)[|Trim(s)| - 1])
  {
    var u := TrimStart(s);
    assert Trim(s)[0] == u[0];
  }

  /** Submitting an accepted name again gives the same name. */
  lemma UpdateIdempotent(name: Option<string>)
    requires ProcessUserProfileUpdate(name).Ok?
    ensures var r := ProcessUserProfileUpdate(name).value.name;
      ProcessUserProfileUpdate(Some(r)) == Ok(ProfileUpdate(r))
  {
    TrimIdempotent(name.value);
  }
}
