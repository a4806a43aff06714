/** Casbin subject strings: how they are built, checked and taken apart again. */
module Subjects {
  import opened Text
  import opened Wrappers

  const MAX_SUBJECT_ID_LENGTH := 256
  const MAX_PROJECT_NAME_LENGTH := 128
  const MAX_ROLE_NAME_LENGTH := 64

  datatype SubjectError = EmptyField | InputTooLarge | InvalidIdentifier | InvalidSubjectType | InvalidSubjectFormat

  function Lower(s: string): (l: string)
    ensures |l| == |s|
    ensures forall k :: 0 <= k < |s| ==> l[k] == (if 'A' <= s[k] <= 'Z' then s[k] - 'A' + 'a' else s[k])
  {
    seq(|s|, k requires 0 <= k < |s| => if 'A' <= s[k] <= 'Z' then s[k] - 'A' + 'a' else s[k])
  }

  predicate ReservedPrefix(id: string) {
    var lower := Lower(id);
    HasPrefix(lower, "role:") || HasPrefix(lower, "user:") || HasPrefix(lower, "group:") || HasPrefix(lower, "proj:")
  }

  /** ValidateSubjectIdentifier, in the source's order of checks. */
  predicate ValidIdentifier(id: string) {
    && id != ""
    && |id| <= MAX_SUBJECT_ID_LENGTH
    && Free(id, ':') && Free(id, '\n') && Free(id, '\r') && Free(id, '\t') && Free(id, ' ')
    && !ReservedPrefix(id)
  }

  /** The reserved-prefix check never rejects anything: the colon check before it already did. */
  lemma {:induction false} ReservedPrefixCheckIsRedundant(id: string)
    ensures ValidIdentifier(id) <==>
            && id != "" && |id| <= MAX_SUBJECT_ID_LENGTH
            && Free(id, ':') && Free(id, '\n') && Free(id, '\r') && Free(id, '\t') && Free(id, ' ')
  {
    var lower := Lower(id);
    if ReservedPrefix(id) {
      var k := if HasPrefix(lower, "group:") then 5 else 4;
      assert lower[k] == ':' && id[k] == ':';
      assert id[k] in id;
    }
  }

  function FormatProjectRole(project: string, role: string): (subject: Option<string>) {
    if |project| > MAX_PROJECT_NAME_LENGTH || |role| > MAX_ROLE_NAME_LENGTH then None
    else if !ValidIdentifier(project) || !ValidIdentifier(role) then None
    else Some("proj:" + project + ":" + role)
  }

  function FormatGroupSubject(group: string): (subject: Option<string>) {
    if ValidIdentifier(group) then Some("group:" + group) else None
  }

  /** strings.SplitN(s, ":", 3). */
  function SplitThree(s: string): (parts: seq<string>)
    ensures 1 <= |parts| <= 3
  {
    var all := Split(s, ':');
    if |all| <= 3 then all else [all[0], all[1], Join(all[2..], ':')]
  }

  function SplitPolicySubjectSafe(subject: string): (r: Result<(string, string, string), SubjectError>) {
    if subject == "" then Err(EmptyField)
    else if |subject| > MAX_SUBJECT_ID_LENGTH then Err(InputTooLarge)
    else
      var parts := SplitThree(subject);
      if |parts| == 1 then
        if ValidIdentifier(parts[0]) then Ok(("role", "", parts[0])) else Err(InvalidIdentifier)
      else if |parts| == 2 then
        if parts[0] !in {"role", "proj", "user", "group"} then Err(InvalidSubjectType)
        else if !ValidIdentifier(parts[1]) then Err(InvalidIdentifier)
        else Ok((parts[0], "", parts[1]))
      else if parts[0] != "proj" then Err(InvalidSubjectFormat)
      else if !ValidIdentifier(parts[1]) || !ValidIdentifier(parts[2]) then Err(InvalidIdentifier)
      else Ok(("proj", parts[1], parts[2]))
  }

  /** isValidRoleFormat: `role:x` or `proj:p:r` with non-empty parts. */
  predicate IsValidRoleFormat(role: string) {
    if HasPrefix(role, "role:") then |role| > 5
    else if HasPrefix(role, "proj:") then
      var parts := SplitThree(role);
      |parts| == 3 && parts[1] != "" && parts[2] != ""
    else false
  }

  /** The prefix by which a project's roles are found again when its policies are removed. */
  function RolePrefix(project: string): (prefix: string)
    ensures |prefix| == |project| + 6
  {
    "proj:" + project + ":"
  }

  lemma {:induction false} SplitThreeAt(a: string, b: string, c: string)
    requires Free(a, ':') && Free(b, ':')
    ensures SplitThree(a + ":" + b + ":" + c) == [a, b, c]
  {
    var s := a + ":" + b + ":" + c;
    assert s == a + [':'] + (b + [':'] + c);
    SplitFirst(a, ':', b + [':'] + c);
    SplitFirst(b, ':', c);
    assert Split(s, ':') == [a, b] + Split(c, ':');
    JoinSplit(c, ':');
    assert ([a, b] + Split(c, ':'))[2..] == Split(c, ':');
  }

  lemma {:induction false} SplitThreeJoins(s: string)
    requires |SplitThree(s)| == 3
    ensures var parts := SplitThree(s);
            s == parts[0] + ":" + parts[1] + ":" + parts[2] && Free(parts[0], ':') && Free(parts[1], ':')
  {
    var all := Split(s, ':');
    JoinSplit(s, ':');
    assert Join(all, ':') == all[0] + [':'] + Join(all[1..], ':');
    assert all[1..][1..] == all[2..];
    assert Join(all[1..], ':') == all[1] + [':'] + Join(all[2..], ':');
  }

  /** Taking apart what FormatProjectRole built gives the project and the role back, and
      nothing else is ever taken apart into them. */
  lemma {:induction false} ProjectRoleRoundTrip(project: string, role: string, subject: string)
    requires |project| <= MAX_PROJECT_NAME_LENGTH && |role| <= MAX_ROLE_NAME_LENGTH
    ensures FormatProjectRole(project, role) == Some(subject)
            <==> project != "" && SplitPolicySubjectSafe(subject) == Ok(("proj", project, role))
    ensures FormatProjectRole(project, role) == Some(subject) ==> |subject| <= 198 && IsValidRoleFormat(subject)
  {
    if FormatProjectRole(project, role) == Some(subject) {
      FormattedSplits(project, role);
    }
    if project != "" && SplitPolicySubjectSafe(subject) == Ok(("proj", project, role)) {
      SplitFormats(project, role, subject);
    }
  }

  lemma {:induction false} SplitFormats(project: string, role: string, subject: string)
    requires |project| <= MAX_PROJECT_NAME_LENGTH && |role| <= MAX_ROLE_NAME_LENGTH
    requires project != "" && SplitPolicySubjectSafe(subject) == Ok(("proj", project, role))
    ensures FormatProjectRole(project, role) == Some(subject)
  {
    SplitThreeJoins(subject);
    assert subject == "proj:" + project + ":" + role;
  }

  lemma {:induction false} FormattedSplits(project: string, role: string)
    requires FormatProjectRole(project, role).Some?
    ensures var subject := FormatProjectRole(project, role).value;
            && SplitPolicySubjectSafe(subject) == Ok(("proj", project, role))
            && |subject| <= 198 && IsValidRoleFormat(subject)
  {
    var subject := "proj:" + project + ":" + role;
    assert subject == "proj" + ":" + project + ":" + role;
    SplitThreeAt("proj", project, role);
    assert HasPrefix(subject, "proj:") && subject[0] == 'p';
  }

  lemma {:induction false} ProjectRoleInjective(p: string, r: string, q: string, s: string)
    requires FormatProjectRole(p, r).Some? && FormatProjectRole(p, r) == FormatProjectRole(q, s)
    ensures p == q && r == s
  {
    ProjectRoleRoundTrip(p, r, FormatProjectRole(p, r).value);
    ProjectRoleRoundTrip(q, s, FormatProjectRole(p, r).value);
  }

  /** The removal prefix of a project selects exactly that project's roles, whatever name is removed. */
  lemma {:induction false} RemovalPrefixIsExact(project: string, role: string, removed: string)
    requires FormatProjectRole(project, role).Some?
    ensures HasPrefix(FormatProjectRole(project, role).value, RolePrefix(removed)) <==> removed == project
  {
    var subject := FormatProjectRole(project, role).value;
    var prefix := RolePrefix(removed);
    if removed == project {
      assert subject == prefix + role;
    }
    if HasPrefix(subject, prefix) {
      var body, head := project + [':'] + role, removed + [':'];
      assert subject == "proj:" + body && prefix == "proj:" + head;
      StripPrefix("proj:", body, head);
      TwoPartCut(project, role, removed, body[|head|..]);
    }
  }

  lemma {:induction false} TwoPartCut(a: string, b: string, c: string, d: string)
    requires Free(a, ':') && Free(b, ':') && a + [':'] + b == c + [':'] + d
    ensures a == c
  {
    SplitFirst(a, ':', b);
    SplitFree(b, ':');
    SplitCount(c, ':', d);
    FirstCutUnique(a, b, ':', c, d);
  }

  /** A text with a separator before another separator splits into at least three parts. */
  lemma {:induction false} SplitCount(a: string, sep: char, b: string)
    ensures |Split(a + [sep] + b, sep)| >= 2
    ensures !Free(a, sep) ==> |Split(a + [sep] + b, sep)| >= 3
  {
    var s := a + [sep] + b;
    if a == "" {
      assert s[1..] == b;
    } else {
      assert s[1..] == a[1..] + [sep] + b;
      SplitCount(a[1..], sep, b);
    }
  }

  // ---- the forms of roles and subjects ----

  /** Well-formed roles: `role:` with something behind it, or `proj:` with two non-empty parts, the first without
      a colon; nothing else. */
  lemma {:induction false} RoleFormatExactly(role: string)
    ensures HasPrefix(role, "role:") ==> (IsValidRoleFormat(role) <==> role != "role:")
    ensures forall p, r | role == "proj:" + p + ":" + r && Free(p, ':') :: IsValidRoleFormat(role) <==> p != "" && r != ""
    ensures HasPrefix(role, "proj:") && Free(role[5..], ':') ==> !IsValidRoleFormat(role)
    ensures !HasPrefix(role, "role:") && !HasPrefix(role, "proj:") ==> !IsValidRoleFormat(role)
  {
    forall p, r | role == "proj:" + p + ":" + r && Free(p, ':') ensures IsValidRoleFormat(role) <==> p != "" && r != "" {
      SplitThreeAt("proj", p, r);
      assert role == "proj" + ":" + p + ":" + r && role[0] == 'p' && HasPrefix(role, "proj:");
    }
    if HasPrefix(role, "proj:") && Free(role[5..], ':') {
      SplitFirst("proj", ':', role[5..]);
      SplitFree(role[5..], ':');
      assert role == "proj" + [':'] + role[5..];
    }
  }

  /** Subjects with fewer than two colons: a bare name is a role, and `kind:name` needs a known kind; the name has
      to be a valid identifier. */
  lemma {:induction false} ShortSubjectsExactly(kind: string, name: string)
    requires Free(kind, ':') && Free(name, ':') && 0 < |name| && |kind| + |name| < 256
    ensures SplitPolicySubjectSafe(name) == if ValidIdentifier(name) then Ok(("role", "", name)) else Err(InvalidIdentifier)
    ensures SplitPolicySubjectSafe(kind + ":" + name)
            == if !(kind == "role" || kind == "proj" || kind == "user" || kind == "group") then Err(InvalidSubjectType)
               else if ValidIdentifier(name) then Ok((kind, "", name)) else Err(InvalidIdentifier)
  {
    SplitFree(name, ':');
    SplitFirst(kind, ':', name);
  }

  /** Empty and overlong subjects are refused. */
  lemma {:induction false} SubjectBounds(subject: string)
    ensures subject == "" ==> SplitPolicySubjectSafe(subject) == Err(EmptyField)
    ensures |subject| > 256 ==> SplitPolicySubjectSafe(subject) == Err(InputTooLarge)
  {
  }
}
