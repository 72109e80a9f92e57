/** The avatar text of the navigation bar: the initials of the signed-in user's name. */
module Navbar {
  import opened Common
  import opened Text

  /**
   * `s.charAt(0)`: the first character, or "" for the empty string. A character is a
   * Unicode scalar value here, where JavaScript takes the first UTF-16 code unit.
   */
  function CharAt0(s: string): (r: string)
    ensures |r| <= 1 && (s != [] ==> r == [s[0]]) && (s == [] ==> r == [])
  {
    if s == [] then [] else [s[0]]
  }

  /**
   * `getInitials(name)`: "U" when there is no name; otherwise the first character of
   * the text before the first space followed by the first character of the text
   * between the first and second spaces.
   */
  function GetInitials(name: Option<string>): (r: string)
    ensures |r| <= 2
    ensures name.None? || name.value == "" ==> r == "U"
    ensures name.Some? && name.value != "" ==> forall c :: c in r ==> c in name.value && c != ' '
  {
    if name.None? || name.value == "" then "U"
    else
      var pieces := Split(name.value, ' ');
      var firstName := pieces[0];
      var lastName := PieceAt(pieces, 1);
      PiecesOfName(name.value, pieces);
      CharAt0(firstName) + (if lastName.Some? && lastName.value != "" then CharAt0(lastName.value) else "")
  }

  /** The first two pieces of a split are made of characters of the string. */
  lemma PiecesOfName(s: string, pieces: seq<string>)
    requires pieces == Split(s, ' ')
    ensures forall c :: c in pieces[0] ==> c in s
    ensures |pieces| > 1 ==> forall c :: c in pieces[1] ==> c in s
  {
    if ' ' in s {
      var i := IndexOf(s, ' ');
      SplitCons(s[..i], s[i + 1..], ' ');
      assert s == s[..i] + [' '] + s[i + 1..];
      var rest := Split(s[i + 1..], ' ');
      assert pieces == [s[..i]] + rest;
      if ' ' in s[i + 1..] {
        var j := IndexOf(s[i + 1..], ' ');
        assert s[i + 1..] == s[i + 1..][..j] + [' '] + s[i + 1..][j + 1..];
        SplitCons(s[i + 1..][..j], s[i + 1..][j + 1..], ' ');
        assert rest[0] == s[i + 1..][..j];
      }
    }
  }

  /** A first and a last name give their two initials. */
  lemma InitialsOfFullName(first: string, last: string)
    requires first != [] && last != [] && ' ' !in first && ' ' !in last
    ensures GetInitials(Some(first + " " + last)) == [first[0], last[0]]
  {
    SplitCons(first, last, ' ');
    assert first + " " + last == first + [' '] + last;
    assert Split(last, ' ') == [last];
  }

  /** Only the first two words count. */
  lemma InitialsIgnoreLaterWords(first: string, middle: string, rest: string)
    requires first != [] && middle != [] && ' ' !in first && ' ' !in middle
    ensures GetInitials(Some(first + " " + middle + " " + rest)) == [first[0], middle[0]]
  {
    var tail := middle + [' '] + rest;
    var s := first + [' '] + tail;
    assert first + " " + middle + " " + rest == s;
    SplitCons(first, tail, ' ');
    SplitCons(middle, rest, ' ');
    InitialsOfPieces(s, first, middle);
  }

  /** `getInitials` reads only the first two pieces of the split. */
  lemma InitialsOfPieces(s: string, first: string, second: string)
    requires s != [] && |Split(s, ' ')| >= 2
    requires Split(s, ' ')[0] == first && Split(s, ' ')[1] == second
    ensures GetInitials(Some(s)) == CharAt0(first) + (if second != "" then CharAt0(second) else "")
  {
  }

  /** A single word gives one initial. */
  lemma InitialOfSingleName(name: string)
    requires name != [] && ' ' !in name
    ensures GetInitials(Some(name)) == [name[0]]
  {
  }
}
