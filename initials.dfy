/**
 * The letters in the avatar of the signed-in user (`initialsFromUser`, and
 * the two copies of the same code on the workouts page): taken from the
 * name when it has any text, else from the part of the e-mail address
 * before the "@", else "?".
 */
module Initials {
  import opened Wrappers
  import opened Strings

  /** The signed-in user as stored by the sign-in code. */
  datatype Person = Person(name: Option<string>, email: Option<string>)

  /** The characters of `/[\.\-_]+/`, which separate the words of an
      e-mail handle. */
  predicate IsHandleSep(c: char) {
    c == '.' || c == '-' || c == '_'
  }

  /** The letters of a list of words: the first two characters of a single
      word, else the first characters of the first and the last word, in
      upper case. */
  function WordsInitials(parts: seq<string>): (r: string)
    requires |parts| >= 1 && forall k :: 0 <= k < |parts| ==> parts[k] != ""
    ensures 1 <= |r| <= 2
    ensures forall i :: 0 <= i < |r| ==> !IsLower(r[i])
  {
    if |parts| == 1 then ToUpper(Slice(parts[0], 0, 2))
    else ToUpper([parts[0][0], parts[|parts| - 1][0]])
  }

  /** The trimmed name, when it is a string with some text. */
  function NameText(u: Option<Person>): Option<string> {
    if u.Some? && u.value.name.Some? && Trim(u.value.name.value) != "" then Some(Trim(u.value.name.value))
    else None
  }

  /** `initialsFromUser(u)`: one or two characters, none of them a lower-case letter. */
  function InitialsFromUser(u: Option<Person>): (r: string)
    ensures 1 <= |r| <= 2
    ensures forall i :: 0 <= i < |r| ==> !IsLower(r[i])
  {
    match NameText(u)
    case Some(name) =>
      WordsFirstChar(name, IsSpace);
      WordsInitials(Words(name, IsSpace))
    case None =>
      if u.Some? && u.value.email.Some? && u.value.email.value != "" then
        var handle := Split(u.value.email.value, '@')[0];
        var parts := Words(handle, IsHandleSep);
        if |parts| == 0 then "?" else WordsInitials(parts)
      else "?"
  }

  /** A trimmed name is not empty and has no white space at either end. */
  lemma NameTextEnds(u: Option<Person>)
    requires NameText(u).Some?
    ensures var n := NameText(u).value; n != "" && !IsSpace(n[0])
  {
  }

  /** A name with any text decides the letters: the e-mail address is not
      looked at. */
  lemma NameFirst(name: string, e1: Option<string>, e2: Option<string>)
    requires !AllSpace(name)
    ensures InitialsFromUser(Some(Person(Some(name), e1))) == InitialsFromUser(Some(Person(Some(name), e2)))
  {
    TrimEmptyIff(name);
  }

  /** A one-word name gives its first two characters in upper case. */
  lemma OneWordName(w: string, email: Option<string>)
    requires w != "" && NoSpace(w)
    ensures InitialsFromUser(Some(Person(Some(w), email))) == ToUpper(Slice(w, 0, 2))
  {
    TrimNoSpace(w);
    WordsNoSep(w, IsSpace);
  }

  /** Words joined by single spaces give the first letters of the first and
      the last word. */
  lemma FullName(ws: seq<string>, email: Option<string>)
    requires |ws| >= 2
    requires forall k :: 0 <= k < |ws| ==> ws[k] != "" && NoSpace(ws[k])
    ensures InitialsFromUser(Some(Person(Some(Join(ws, " ")), email))) == ToUpper([ws[0][0], ws[|ws| - 1][0]])
  {
    var name := Join(ws, " ");
    JoinedName(ws);
    NamedInitials(Some(Person(Some(name), email)), name, ws);
  }

  /** A name of two words or more gives the first letters of the first and
      the last word. */
  lemma NamedInitials(u: Option<Person>, name: string, ws: seq<string>)
    requires u.Some? && u.value.name == Some(name) && name != "" && Trim(name) == name
    requires Words(name, IsSpace) == ws && |ws| >= 2
    ensures InitialsFromUser(u) == ToUpper([ws[0][0], ws[|ws| - 1][0]])
  {
    NameInitials(u, name, ws);
  }

  /** Words joined by single spaces are their own trim, and split back into
      those words. */
  lemma JoinedName(ws: seq<string>)
    requires |ws| >= 1
    requires forall k :: 0 <= k < |ws| ==> ws[k] != "" && NoSpace(ws[k])
    ensures var name := Join(ws, " "); name != "" && Trim(name) == name && Words(name, IsSpace) == ws
  {
    var name := Join(ws, " ");
    JoinEnds(ws, ' ');
    TrimEnds(name);
    SplitWhereJoin(ws, ' ', IsSpace);
    NonEmptyAll(ws);
  }

  /** A name with text gives the letters of its words. */
  lemma NameInitials(u: Option<Person>, name: string, parts: seq<string>)
    requires NameText(u) == Some(name) && Words(name, IsSpace) == parts && |parts| >= 1
    ensures InitialsFromUser(u) == WordsInitials(parts)
  {
  }

  /** A join of non-empty pieces starts with the first piece's first
      character and ends with the last piece's last character. */
  lemma {:induction false} JoinEnds(ws: seq<string>, sep: char)
    requires |ws| >= 1 && forall k :: 0 <= k < |ws| ==> ws[k] != ""
    ensures var s := Join(ws, [sep]); s != "" && s[0] == ws[0][0] && s[|s| - 1] == ws[|ws| - 1][|ws[|ws| - 1]| - 1]
  {
    if |ws| > 1 {
      JoinEnds(ws[1..], sep);
      var rest := Join(ws[1..], [sep]);
      assert Join(ws, [sep]) == ws[0] + [sep] + rest;
    }
  }

  /** Without a name, an address `first.last@domain` (words separated by
      ".", "-" or "_") gives the first letters of the first and the last
      word of the handle. */
  lemma EmailHandle(hs: seq<string>, sep: char, domain: string, name: Option<string>)
    requires |hs| >= 2 && IsHandleSep(sep)
    requires forall k, i :: 0 <= k < |hs| && 0 <= i < |hs[k]| ==> !IsHandleSep(hs[k][i]) && hs[k][i] != '@'
    requires forall k :: 0 <= k < |hs| ==> hs[k] != ""
    requires name.None? || AllSpace(name.value)
    ensures InitialsFromUser(Some(Person(name, Some(Join(hs, [sep]) + "@" + domain))))
         == ToUpper([hs[0][0], hs[|hs| - 1][0]])
  {
    var handle := Join(hs, [sep]);
    var email := handle + "@" + domain;
    var u := Some(Person(name, Some(email)));
    assert NameText(u).None? by {
      if name.Some? {
        TrimEmptyIff(name.value);
      }
    }
    assert Split(email, '@')[0] == handle && Words(handle, IsHandleSep) == hs by {
      HandleWords(hs, sep, domain);
    }
    assert email != "" by {
      assert |email| >= 1 + |domain|;
    }
    EmailInitials(u, handle, hs);
    assert WordsInitials(hs) == ToUpper([hs[0][0], hs[|hs| - 1][0]]);
  }

  /** Without a name, the letters come from the words of the handle. */
  lemma EmailInitials(u: Option<Person>, handle: string, parts: seq<string>)
    requires NameText(u).None? && u.Some? && u.value.email.Some? && u.value.email.value != ""
    requires Split(u.value.email.value, '@')[0] == handle && Words(handle, IsHandleSep) == parts
    requires |parts| >= 1
    ensures InitialsFromUser(u) == WordsInitials(parts)
  {
  }

  /** The handle of `first.last@domain` and its words. */
  lemma HandleWords(hs: seq<string>, sep: char, domain: string)
    requires |hs| >= 1 && IsHandleSep(sep)
    requires forall k, i :: 0 <= k < |hs| && 0 <= i < |hs[k]| ==> !IsHandleSep(hs[k][i]) && hs[k][i] != '@'
    requires forall k :: 0 <= k < |hs| ==> hs[k] != ""
    ensures Split(Join(hs, [sep]) + "@" + domain, '@')[0] == Join(hs, [sep])
    ensures Words(Join(hs, [sep]), IsHandleSep) == hs
  {
    var handle := Join(hs, [sep]);
    JoinChars(hs, sep);
    assert handle + "@" + domain == handle + ['@'] + domain;
    SplitAtFirst(handle, '@', domain, c => c == '@');
    SplitWhereJoin(hs, sep, IsHandleSep);
    NonEmptyAll(hs);
  }

  /** The characters of a join are those of its pieces and the separator. */
  lemma {:induction false} JoinChars(ws: seq<string>, sep: char)
    requires forall k, i :: 0 <= k < |ws| && 0 <= i < |ws[k]| ==> ws[k][i] != '@'
    requires sep != '@'
    ensures forall i :: 0 <= i < |Join(ws, [sep])| ==> Join(ws, [sep])[i] != '@'
  {
    if |ws| > 1 {
      JoinChars(ws[1..], sep);
      var rest := Join(ws[1..], [sep]);
      var s := ws[0] + [sep] + rest;
      assert Join(ws, [sep]) == s;
      forall i | 0 <= i < |s| ensures s[i] != '@' {
        if i < |ws[0]| {
          assert s[i] == ws[0][i];
        } else if i > |ws[0]| {
          assert s[i] == rest[i - |ws[0]| - 1];
        }
      }
    } else if |ws| == 1 {
      assert Join(ws, [sep]) == ws[0];
    }
  }

  /** With no name and no address, or an address whose handle is only
      separators, the avatar shows "?". */
  lemma NoInitials(u: Option<Person>)
    requires NameText(u).None?
    requires u.Some? ==> u.value.email.None? || u.value.email.value == ""
                         || forall i :: 0 <= i < |Split(u.value.email.value, '@')[0]| ==> IsHandleSep(Split(u.value.email.value, '@')[0][i])
    ensures InitialsFromUser(u) == "?"
  {
    if u.Some? && u.value.email.Some? && u.value.email.value != "" {
      var handle := Split(u.value.email.value, '@')[0];
      AllSepNoWords(handle, IsHandleSep);
    }
  }
}
