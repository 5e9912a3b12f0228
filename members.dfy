/**
 * A roster member as read from the team file, and the card drawn for it: every field may
 * be missing, and a missing or empty field falls back to a fixed text instead of failing.
 * The major is written as "<grade>级<major>"; the card shows the part after the first 级.
 */
module Members {
  import opened Wrappers
  import opened JsText

  /** A member record; `None` is a field absent from the file. */
  datatype Member = Member(name: Option<string>, major: Option<string>, role: Option<string>)

  /** What a member card shows: the avatar letter, the name, the major and the role. */
  datatype Card = Card(avatar: string, name: string, major: string, role: string)

  const GradeMark: char := '级'
  const UnknownName: string := "未知姓名"
  const UnknownMajor: string := "未知专业"
  const DefaultRole: string := "成员"
  const NoInitial: string := "?"

  /** JavaScript truthiness of an optional string: present and non-empty. */
  predicate Truthy(field: Option<string>) {
    field.Some? && field.value != ""
  }

  /** `field || fallback`. */
  function OrElse(field: Option<string>, fallback: string): (r: string)
    ensures fallback != "" ==> r != ""
  {
    if Truthy(field) then field.value else fallback
  }

  /** The major shown on the card: split the major on 级 (a missing major standing for
      the pieces `['', '未知专业']`) and take the second piece if there is one, else the
      major itself. */
  function MajorName(major: Option<string>): (r: string)
    ensures !Truthy(major) ==> r == UnknownMajor
    ensures GradeMark !in r
  {
    var parts := if Truthy(major) then Split(major.value, GradeMark) else ["", UnknownMajor];
    if |parts| > 1 then parts[1] else OrElse(major, UnknownMajor)
  }

  /** The major shown is: the fallback when the major is missing or empty; the major itself
      when it has no 级; otherwise exactly the text between the first 级 and the next 级
      (or the end). */
  lemma MajorNameCases(major: Option<string>)
    ensures !Truthy(major) ==> MajorName(major) == UnknownMajor
    ensures Truthy(major) && GradeMark !in major.value ==> MajorName(major) == major.value
    ensures Truthy(major) && GradeMark in major.value ==>
      PieceAt(major.value, IndexOf(major.value, GradeMark) + 1, MajorName(major), GradeMark)
  {
    if Truthy(major) {
      var s := major.value;
      SplitSingleIff(s, GradeMark);
      if GradeMark in s {
        SplitSecondPiece(s, GradeMark);
      }
    }
  }

  /** A major given as a grade alone ("2023级") shows as an empty major, not as the fallback. */
  lemma GradeOnlyMajorShowsEmpty()
    ensures MajorName(Some("2023级")) == ""
  {
    assert IndexOf("2023级", GradeMark) == 4;
    assert "2023级"[5..] == "";
  }

  /** The card for one member. The avatar is always one character and the name and role are
      never blank: a present name gives the name and its first character, a missing one the
      fallback name and "?"; the role falls back to 成员. */
  function MemberCard(m: Member): (c: Card)
    ensures |c.avatar| == 1 && c.name != "" && c.role != ""
    ensures Truthy(m.name) ==> c.name == m.name.value && c.avatar == c.name[..1]
    ensures !Truthy(m.name) ==> c.name == UnknownName && c.avatar == NoInitial
    ensures c.major == MajorName(m.major)
    ensures Truthy(m.role) ==> c.role == m.role.value
    ensures !Truthy(m.role) ==> c.role == DefaultRole
  {
    var initial := if Truthy(m.name) then [m.name.value[0]] else NoInitial;
    Card(initial, OrElse(m.name, UnknownName), MajorName(m.major), OrElse(m.role, DefaultRole))
  }
}
