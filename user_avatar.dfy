/** The navbar avatar: the picture when one is set, the user's initials otherwise. */
module UserAvatar {
  import opened Wrappers
  import opened Text
  import opened Roles

  /** JavaScript truthiness of an optional string: present and not "". */
  predicate Truthy(s: Option<string>) { s.Some? && s.value != "" }

  /** `full_name || email || ""` */
  function NameSource(user: User): (r: string)
    ensures Truthy(user.fullName) ==> r == user.fullName.value
    ensures !Truthy(user.fullName) && Truthy(user.email) ==> r == user.email.value
    ensures !Truthy(user.fullName) && !Truthy(user.email) ==> r == ""
  {
    if Truthy(user.fullName) then user.fullName.value
    else if Truthy(user.email) then user.email.value
    else ""
  }

  /** The image's alt text, `full_name || email || "User"`: the name source, or "User" when that is empty. */
  function AltText(user: User): (r: string)
    ensures r != ""
    ensures NameSource(user) != "" ==> r == NameSource(user)
    ensures NameSource(user) == "" ==> r == "User"
  {
    if Truthy(user.fullName) then user.fullName.value
    else if Truthy(user.email) then user.email.value
    else "User"
  }

  /** `s.split(" ")`: the pieces between single spaces, empty ones included. */
  function Split(s: string): (r: seq<string>)
    ensures |r| >= 1
    ensures forall i :: 0 <= i < |r| ==> ' ' !in r[i]
  {
    if s == [] then [""]
    else if s[0] == ' ' then [""] + Split(s[1..])
    else
      var rest := Split(s[1..]);
      [[s[0]] + rest[0]] + rest[1..]
  }

  /** `words.join(" ")` */
  function Join(words: seq<string>): (joined: string)
    requires |words| >= 1
  {
    if |words| == 1 then words[0] else words[0] + " " + Join(words[1..])
  }

  /** Splitting on spaces loses nothing: joining the pieces back gives the name. */
  lemma {:induction false} JoinSplit(s: string)
    ensures Join(Split(s)) == s
  {
    if s == [] {
    } else if s[0] == ' ' {
      JoinSplit(s[1..]);
      assert Split(s)[1..] == Split(s[1..]);
      assert s == " " + s[1..];
    } else {
      var rest := Split(s[1..]);
      JoinSplit(s[1..]);
      var w := Split(s);
      assert w[1..] == rest[1..];
      if |rest| == 1 {
        assert s == [s[0]] + rest[0];
      } else {
        assert Join(rest) == rest[0] + " " + Join(rest[1..]);
        assert Join(w) == [s[0]] + rest[0] + " " + Join(rest[1..]);
        assert s == [s[0]] + s[1..];
      }
    }
  }

  /** `.map((n) => n[0]).join("")`: the first character of each piece; an empty piece gives `undefined`, which joins as nothing. */
  function FirstLetters(words: seq<string>): (r: string)
    ensures |r| <= |words|
  {
    if words == [] then ""
    else (if words[0] == "" then "" else [words[0][0]]) + FirstLetters(words[1..])
  }

  /**
   * An independent reading of the same thing: the non-space characters that
   * start the string or follow a space. `atStart` says whether the previous
   * character was a space (or there was none).
   */
  function WordStarts(s: string, atStart: bool): (r: string)
    ensures forall i :: 0 <= i < |r| ==> r[i] in s && r[i] != ' '
  {
    if s == [] then ""
    else if s[0] == ' ' then WordStarts(s[1..], true)
    else (if atStart then [s[0]] else "") + WordStarts(s[1..], false)
  }

  /** The first letters of the split pieces are exactly the word starts. */
  lemma {:induction false} FirstLettersAreWordStarts(s: string)
    ensures FirstLetters(Split(s)) == WordStarts(s, true)
    ensures FirstLetters(Split(s)[1..]) == WordStarts(s, false)
  {
    if s == [] {
    } else if s[0] == ' ' {
      FirstLettersAreWordStarts(s[1..]);
      assert Split(s)[1..] == Split(s[1..]);
    } else {
      FirstLettersAreWordStarts(s[1..]);
      var rest := Split(s[1..]);
      assert Split(s)[1..] == rest[1..];
    }
  }

  /** `getUserInitials(user)` */
  function Initials(user: User): (r: string)
    ensures |r| <= 2
  {
    var letters := Upper(FirstLetters(Split(NameSource(user))));
    if |letters| <= 2 then letters else letters[..2]
  }

  /**
   * The initials are the uppercased starts of the first two words, in order,
   * and a user with neither a name nor an email gets none.
   */
  lemma InitialsAreFirstWordStarts(user: User)
    ensures var starts := WordStarts(NameSource(user), true);
      && |Initials(user)| == (if |starts| < 2 then |starts| else 2)
      && forall i :: 0 <= i < |Initials(user)| ==> Initials(user)[i] == UpperChar(starts[i])
    ensures NameSource(user) == "" ==> Initials(user) == ""
  {
    FirstLettersAreWordStarts(NameSource(user));
  }

  /** `avatarUrl && avatarUrl.trim() !== ""` */
  predicate HasValidAvatar(user: User) {
    Truthy(user.avatarUrl) && !IsBlank(user.avatarUrl.value)
  }

  /** The picture is shown iff an avatar URL is set and holds a non-whitespace character. */
  lemma HasValidAvatarIff(user: User)
    ensures HasValidAvatar(user) <==>
      user.avatarUrl.Some? && exists i :: 0 <= i < |user.avatarUrl.value| && !IsSpace(user.avatarUrl.value[i])
  {
    if user.avatarUrl.Some? {
      BlankIffAllSpace(user.avatarUrl.value);
    }
  }
}
