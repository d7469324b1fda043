/**
 * The initials shown in the navigation bar,
 * PisciApp/src/app/shared/components/navbar/navbar.component.ts.
 *
 * The name is trimmed and split on single spaces; the initials are the first
 * character of the first part and of the last part, upper-cased. Inner runs of
 * spaces give empty middle parts, which the rule never looks at. Case mapping
 * is the one-character-per-character mapping of `Strings.ToUpperChar`.
 */
module Navbar {
  import opened Wrappers
  import opened Strings

  /** `getInitials`. */
  function GetInitials(name: string): (r: string)
    ensures |r| <= 2
    ensures name == "" ==> r == "U"
  {
    if name == "" then "U"
    else
      var parts := Split(Trim(name), ' ');
      if |parts| == 1 then ToUpper(CharAt0(parts[0]))
      else ToUpper(CharAt0(parts[0]) + CharAt0(parts[|parts| - 1]))
  }

  /** A word: non-empty and free of whitespace. */
  predicate IsWord(w: string) {
    w != [] && forall i :: 0 <= i < |w| ==> !IsJsWhitespace(w[i])
  }

  /** A single word, whatever whitespace surrounds it, gives its first letter upper-cased. */
  lemma {:induction false} SingleWordInitial(w: string, pad1: string, pad2: string)
    requires IsWord(w) && AllWhitespace(pad1) && AllWhitespace(pad2)
    ensures GetInitials(pad1 + w + pad2) == [ToUpperChar(w[0])]
  {
    TrimUnique(pad1, w, pad2);
    assert forall i :: 0 <= i < |w| ==> w[i] != ' ';
    SplitWithoutSeparator(w, ' ');
    assert pad1 + w + pad2 != "" by { assert |pad1 + w + pad2| >= |w|; }
  }

  /** Two words separated by one space give the first letters of both, upper-cased. */
  lemma {:induction false} TwoWordInitials(a: string, b: string)
    requires IsWord(a) && IsWord(b)
    ensures GetInitials(a + " " + b) == [ToUpperChar(a[0]), ToUpperChar(b[0])]
  {
    var name := a + " " + b;
    TwoWordsTrimmed(a, b);
    TwoWordsSplit(a, b);
    var parts := Split(Trim(name), ' ');
    assert parts == [a, b];
    assert CharAt0(parts[0]) + CharAt0(parts[1]) == [a[0], b[0]];
  }

  /** Two words joined by one space have no whitespace to trim. */
  lemma TwoWordsTrimmed(a: string, b: string)
    requires IsWord(a) && IsWord(b)
    ensures Trim(a + " " + b) == a + " " + b
  {
    var name := a + " " + b;
    assert name[0] == a[0] && name[|name| - 1] == b[|b| - 1];
    TrimUnique([], name, []);
    assert [] + name + [] == name;
  }

  /** Two words joined by one space split on ' ' into exactly those words. */
  lemma TwoWordsSplit(a: string, b: string)
    requires IsWord(a) && IsWord(b)
    ensures Split(a + " " + b, ' ') == [a, b]
  {
    assert forall i :: 0 <= i < |a| ==> a[i] != ' ' by {
      forall i | 0 <= i < |a| ensures a[i] != ' ' { assert !IsJsWhitespace(a[i]); }
    }
    assert forall i :: 0 <= i < |b| ==> b[i] != ' ' by {
      forall i | 0 <= i < |b| ensures b[i] != ' ' { assert !IsJsWhitespace(b[i]); }
    }
    SplitWithoutSeparator(b, ' ');
    SplitFirstField(a, b, ' ');
    assert a + [' '] + b == a + " " + b;
  }

  /** A name that is only whitespace trims to nothing and shows no initials at all. */
  lemma BlankNameNoInitials(s: string)
    requires s != "" && AllWhitespace(s)
    ensures GetInitials(s) == ""
  {
    TrimUnique(s, [], []);
    assert s + [] + [] == s;
    assert Split([], ' ') == [[]];
  }

  /** The initials the bar shows for the current user: those of "Usuario" when the name is missing or empty. */
  function DisplayedInitials(nombre: Option<string>): (r: string)
    ensures |r| <= 2
    ensures nombre.Some? && nombre.value != "" ==> r == GetInitials(nombre.value)
  {
    GetInitials(if nombre.Some? && nombre.value != "" then nombre.value else "Usuario")
  }

  /** A user without a name is shown as "U". */
  lemma MissingNameShowsU(nombre: Option<string>)
    requires nombre.None? || nombre.value == ""
    ensures DisplayedInitials(nombre) == "U"
  {
    SingleWordInitial("Usuario", [], []);
    assert [] + "Usuario" + [] == "Usuario";
  }
}
