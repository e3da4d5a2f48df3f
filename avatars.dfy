/** The display avatar chosen from a person's name, defined identically in
    src/Teacher/Subject/Queries.py and src/Teacher/Subject/Chat.py. */
module Avatars {
  import opened Wrappers

  /** 👤: no name. */
  const Anonymous: string := "\U{1F464}"
  /** 👩‍🎓: a name whose first letter is a vowel. */
  const VowelStudent: string := "\U{1F469}\U{200D}\U{1F393}"
  /** 👨‍🎓: any other name. */
  const OtherStudent: string := "\U{1F468}\U{200D}\U{1F393}"

  /** Python's `c.upper()` on the characters whose upper case is one of A, E, I,
      O, U: the ASCII lower-case letters and the dotless i (U+0131). Every other
      character either keeps its case or upper-cases to something that is not
      one of those five letters, so it is returned unchanged. */
  function Upper(c: char): char
  {
    if 'a' <= c <= 'z' then (c as int - 32) as char
    else if c == 'ı' then 'I'
    else c
  }

  predicate IsVowel(c: char)
  {
    c == 'A' || c == 'E' || c == 'I' || c == 'O' || c == 'U'
  }

  /** `get_avatar(name)`. */
  function Avatar(name: Option<string>): (a: string)
    ensures Blank(name) <==> a == Anonymous
    ensures !Blank(name) ==> (a == VowelStudent <==> IsVowel(Upper(name.value[0])))
    ensures a == Anonymous || a == VowelStudent || a == OtherStudent
  {
    if Blank(name) then Anonymous
    else if IsVowel(Upper(name.value[0])) then VowelStudent
    else OtherStudent
  }

  /** The avatar depends on the first character alone, and not on its case. */
  lemma AvatarOfFirstLetter(c: char, d: char, rest: string, rest': string)
    requires Upper(c) == Upper(d)
    ensures Avatar(Some([c] + rest)) == Avatar(Some([d] + rest'))
  {
  }

  /** The vowel avatar goes exactly to names starting with a, e, i, o, u in
      either case, or with the dotless i. */
  lemma VowelAvatarIff(name: string)
    requires name != ""
    ensures Avatar(Some(name)) == VowelStudent <==>
      name[0] in "aeiouAEIOUı"
  {
    var c := name[0];
    if 'a' <= c <= 'z' {
      assert Upper(c) == (c as int - 32) as char;
    }
  }
}
