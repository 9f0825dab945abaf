/** The part of AuthManager (script.js) that is plain string work: the
    initials shown for a signed-in user. JavaScript's String.prototype.trim,
    split(' ') and toUpperCase are modelled on `string` (a sequence of
    Unicode scalar values), with upper-casing restricted to ASCII letters. */
module Auth {
  import opened Seqs

  /** The characters String.prototype.trim removes: the ECMAScript WhiteSpace
      and LineTerminator characters. */
  predicate IsTrimmed(c: char)
  {
    c == ' ' || c == '\t' || c == '\n' || c == '\r' || c == '\U{000B}' || c == '\U{000C}' ||
    c == '\U{00A0}' || c == '\U{1680}' || ('\U{2000}' <= c <= '\U{200A}') ||
    c == '\U{2028}' || c == '\U{2029}' || c == '\U{202F}' || c == '\U{205F}' ||
    c == '\U{3000}' || c == '\U{FEFF}'
  }

  /** Dropping trimmed characters from the front leaves a suffix. */
  function TrimStart(s: string): (r: string)
    ensures |r| <= |s| && r == s[|s| - |r|..]
  {
    if |s| > 0 && IsTrimmed(s[0]) then TrimStart(s[1..]) else s
  }

  /** Dropping trimmed characters from the back leaves a prefix. */
  function TrimEnd(s: string): (r: string)
    ensures |r| <= |s| && r == s[..|r|]
  {
    if |s| > 0 && IsTrimmed(s[|s| - 1]) then TrimEnd(s[..|s| - 1]) else s
  }

  /** Everything TrimStart drops is a trimmed character, and what it keeps
      does not start with one. */
  lemma {:induction false} TrimStartCuts(s: string)
    ensures var r := TrimStart(s);
            (forall k :: 0 <= k < |s| - |r| ==> IsTrimmed(s[k])) && (r == [] || !IsTrimmed(r[0]))
  {
    if |s| > 0 && IsTrimmed(s[0]) {
      var s' := s[1..];
      TrimStartCuts(s');
      var r := TrimStart(s');
      forall k | 0 <= k < |s| - |r| ensures IsTrimmed(s[k]) {
        if k > 0 {
          var c := s'[k - 1];
          assert IsTrimmed(c);
          assert s[k] == c;
        }
      }
    }
  }

  /** Everything TrimEnd drops is a trimmed character, and what it keeps
      does not end with one. */
  lemma {:induction false} TrimEndCuts(s: string)
    ensures var r := TrimEnd(s);
            (forall k :: |r| <= k < |s| ==> IsTrimmed(s[k])) && (r == [] || !IsTrimmed(r[|r| - 1]))
  {
    if |s| > 0 && IsTrimmed(s[|s| - 1]) {
      var s' := s[..|s| - 1];
      TrimEndCuts(s');
      var r := TrimEnd(s');
      forall k | |r| <= k < |s| ensures IsTrimmed(s[k]) {
        if k < |s| - 1 {
          var c := s'[k];
          assert IsTrimmed(c);
          assert s[k] == c;
        }
      }
    }
  }

  /** Where the trimmed string starts. */
  function TrimOffset(s: string): (i: nat)
    ensures i <= |s|
  {
    |s| - |TrimStart(s)|
  }

  /** String.prototype.trim: the slice of `s` between its leading and its
      trailing trimmed characters. */
  function Trim(s: string): (r: string)
    ensures TrimOffset(s) + |r| <= |s| && r == s[TrimOffset(s)..TrimOffset(s) + |r|]
  {
    var t := TrimStart(s);
    var r := TrimEnd(t);
    PrefixOfSuffix(s, t, r);
    r
  }

  /** Trim cuts nothing but trimmed characters from the back. */
  lemma TrimCutsTail(s: string)
    ensures forall k :: TrimOffset(s) + |Trim(s)| <= k < |s| ==> IsTrimmed(s[k])
  {
    var t := TrimStart(s);
    TrimEndCuts(t);
    TrimmedTailOfSuffix(s, t, TrimEnd(t));
  }

  /** Trimmed characters past a prefix `r` of a suffix `t` of `s` are the
      same characters of `s`. */
  lemma TrimmedTailOfSuffix(s: string, t: string, r: string)
    requires |t| <= |s| && t == s[|s| - |t|..]
    requires |r| <= |t| && forall k :: |r| <= k < |t| ==> IsTrimmed(t[k])
    ensures forall k :: |s| - |t| + |r| <= k < |s| ==> IsTrimmed(s[k])
  {
    var i := |s| - |t|;
    forall k | i + |r| <= k < |s| ensures IsTrimmed(s[k]) {
      var c := t[k - i];
      assert IsTrimmed(c);
      assert s[k] == c;
    }
  }

  /** Neither end of a trimmed string is a trimmed character. */
  lemma TrimEnds(s: string)
    ensures var r := Trim(s); r == [] || (!IsTrimmed(r[0]) && !IsTrimmed(r[|r| - 1]))
  {
    var t := TrimStart(s);
    TrimStartCuts(s);
    TrimEndCuts(t);
    FirstOfPrefix(t, TrimEnd(t));
  }

  /** A non-empty prefix starts where the whole sequence does. */
  lemma FirstOfPrefix(t: string, r: string)
    requires |r| <= |t| && r == t[..|r|]
    ensures r == [] || r[0] == t[0]
  {
  }

  /** Everything trim cuts away is a trimmed character, and the result
      neither starts nor ends with one. */
  lemma TrimRemovesWhiteSpace(s: string)
    ensures var r := Trim(s);
            (forall k :: 0 <= k < TrimOffset(s) ==> IsTrimmed(s[k])) &&
            (forall k :: TrimOffset(s) + |r| <= k < |s| ==> IsTrimmed(s[k])) &&
            (r == [] || (!IsTrimmed(r[0]) && !IsTrimmed(r[|r| - 1])))
  {
    TrimStartCuts(s);
    TrimCutsTail(s);
    TrimEnds(s);
  }

  /** Trimming a trimmed string changes nothing. */
  lemma TrimIdempotent(s: string)
    ensures Trim(Trim(s)) == Trim(s)
  {
    var r := Trim(s);
    TrimRemovesWhiteSpace(s);
    if r != [] {
      assert TrimStart(r) == r;
      assert TrimEnd(r) == r;
    }
  }

  /** Array.prototype.join(' '). */
  function Join(ws: seq<string>): string
  {
    if |ws| == 0 then []
    else if |ws| == 1 then ws[0]
    else Join(ws[..|ws| - 1]) + [' '] + ws[|ws| - 1]
  }

  /** Extending the last piece extends the joined string. */
  lemma JoinExtendLast(ps: seq<string>, c: char)
    requires |ps| >= 1
    ensures Join(ps[..|ps| - 1] + [ps[|ps| - 1] + [c]]) == Join(ps) + [c]
  {
    var ws := ps[..|ps| - 1] + [ps[|ps| - 1] + [c]];
    assert ws[..|ws| - 1] == ps[..|ps| - 1];
  }

  /** String.prototype.split(' '): the pieces between single spaces; two
      spaces in a row leave an empty piece between them. */
  function Split(s: string): (ws: seq<string>)
    ensures |ws| >= 1
    ensures forall i :: 0 <= i < |ws| ==> ' ' !in ws[i]
    ensures ws[|ws| - 1] == [] <==> s == [] || s[|s| - 1] == ' '
  {
    if |s| == 0 then [[]]
    else
      var init, c := s[..|s| - 1], s[|s| - 1];
      assert s == init + [c];
      var ps := Split(init);
      if c == ' ' then
        assert (ps + [[]])[..|ps|] == ps;
        ps + [[]]
      else
        ps[..|ps| - 1] + [ps[|ps| - 1] + [c]]
  }

  /** One step of Split, as a lemma: the last character either opens a new
      piece (a space) or extends the last piece. */
  lemma SplitSnoc(s: string, c: char)
    ensures Split(s + [c]) ==
              if c == ' ' then Split(s) + [[]]
              else Split(s)[..|Split(s)| - 1] + [Split(s)[|Split(s)| - 1] + [c]]
  {
    assert (s + [c])[..|s|] == s;
  }

  /** Joining the pieces with single spaces gives the string back. */
  lemma {:induction false} JoinSplit(s: string)
    ensures Join(Split(s)) == s
  {
    if |s| > 0 {
      var init, c := s[..|s| - 1], s[|s| - 1];
      assert s == init + [c];
      JoinSplit(init);
      SplitSnoc(init, c);
      var ps := Split(init);
      if c == ' ' {
        assert (ps + [[]])[..|ps|] == ps;
      } else {
        JoinExtendLast(ps, c);
      }
    }
  }

  /** Appending a space and a word without spaces adds exactly that word. */
  lemma {:induction false} SplitAppendWord(s: string, w: string)
    requires ' ' !in w
    ensures Split(s + [' '] + w) == Split(s) + [w]
    decreases |w|
  {
    if |w| == 0 {
      assert s + [' '] + w == s + [' '];
      SplitSnoc(s, ' ');
    } else {
      var w', c := w[..|w| - 1], w[|w| - 1];
      assert w == w' + [c];
      assert c != ' ' && ' ' !in w' by {
        assert c in w;
        assert forall x :: x in w' ==> x in w;
      }
      SplitAppendWord(s, w');
      SplitExtendWord(s + [' '] + w', Split(s), w', c);
      assert s + [' '] + w == s + [' '] + w' + [c];
    }
  }

  /** The inductive step of SplitAppendWord: a non-space character extends
      the last word. */
  lemma SplitExtendWord(t: string, ws: seq<string>, w: string, c: char)
    requires c != ' '
    requires Split(t) == ws + [w]
    ensures Split(t + [c]) == ws + [w + [c]]
  {
    SplitSnoc(t, c);
    assert (ws + [w])[..|ws|] == ws;
  }

  lemma {:induction false} SplitWord(w: string)
    requires ' ' !in w
    ensures Split(w) == [w]
    decreases |w|
  {
    if |w| > 0 {
      var w', c := w[..|w| - 1], w[|w| - 1];
      assert c in w;
      assert forall x :: x in w' ==> x in w;
      SplitWord(w');
      assert w' + [c] == w;
      SplitSnoc(w', c);
    }
  }

  /** Splitting the join of space-free words gives the words back. */
  lemma {:induction false} SplitJoin(ws: seq<string>)
    requires |ws| >= 1
    requires forall w :: w in ws ==> ' ' !in w
    ensures Split(Join(ws)) == ws
  {
    if |ws| == 1 {
      assert ws[0] in ws;
      SplitWord(ws[0]);
      assert [ws[0]] == ws;
    } else {
      var init, last := ws[..|ws| - 1], ws[|ws| - 1];
      assert forall w :: w in init ==> w in ws;
      SplitJoin(init);
      assert last in ws;
      SplitJoinStep(ws);
    }
  }

  /** The inductive step of SplitJoin: one more space-free word. */
  lemma SplitJoinStep(ws: seq<string>)
    requires |ws| >= 2 && ' ' !in ws[|ws| - 1]
    requires Split(Join(ws[..|ws| - 1])) == ws[..|ws| - 1]
    ensures Split(Join(ws)) == ws
  {
    var init, last := ws[..|ws| - 1], ws[|ws| - 1];
    SplitAppendWord(Join(init), last);
    PrefixAndLast(ws);
  }

  /** Every character of a piece is a character of the joined string. */
  lemma {:induction false} JoinHasPieces(ws: seq<string>, w: string, c: char)
    requires w in ws && c in w
    ensures c in Join(ws)
  {
    if |ws| > 1 {
      if w == ws[|ws| - 1] {
        assert Join(ws) == Join(ws[..|ws| - 1]) + [' '] + w;
      } else {
        assert w in ws[..|ws| - 1];
        JoinHasPieces(ws[..|ws| - 1], w, c);
      }
    }
  }

  predicate NoDoubleSpace(s: string)
  {
    forall i :: 0 <= i < |s| - 1 ==> !(s[i] == ' ' && s[i + 1] == ' ')
  }

  /** With no two spaces in a row and no leading space, only the last piece
      can be empty. */
  lemma {:induction false} SplitInnerPiecesNonEmpty(s: string)
    requires s == [] || s[0] != ' '
    requires NoDoubleSpace(s)
    ensures forall i :: 0 <= i < |Split(s)| - 1 ==> Split(s)[i] != []
  {
    if |s| > 0 {
      var init, c := s[..|s| - 1], s[|s| - 1];
      assert NoDoubleSpace(init) by {
        forall i | 0 <= i < |init| - 1 ensures !(init[i] == ' ' && init[i + 1] == ' ') {
          assert init[i] == s[i] && init[i + 1] == s[i + 1];
        }
      }
      SplitInnerPiecesNonEmpty(init);
      var ps := Split(init);
      if c == ' ' {
        assert init != [];
        assert s[|s| - 2] == init[|init| - 1];
        assert ps[|ps| - 1] != [];
        assert Split(s) == ps + [[]];
      } else {
        assert Split(s) == ps[..|ps| - 1] + [ps[|ps| - 1] + [c]];
      }
    }
  }

  /** JavaScript's `w[0]` spliced into a string: the first character, or the
      text "undefined" for an empty string. */
  function FirstOrUndefined(w: string): (r: string)
    ensures w != [] ==> r == [w[0]]
    ensures w == [] ==> r == "undefined"
  {
    if w == [] then "undefined" else [w[0]]
  }

  function UpperChar(c: char): (r: char)
    ensures 'a' <= c <= 'z' ==> 'A' <= r <= 'Z' && r as int == c as int - 32
    ensures !('a' <= c <= 'z') ==> r == c
  {
    if 'a' <= c <= 'z' then (c as int - 32) as char else c
  }

  /** toUpperCase on ASCII letters; every other character is kept. */
  function ToUpper(s: string): (r: string)
    ensures |r| == |s|
    ensures forall i :: 0 <= i < |s| ==> r[i] == UpperChar(s[i])
  {
    seq(|s|, i requires 0 <= i < |s| => UpperChar(s[i]))
  }

  /** `name.substring(0, 2)`. */
  function FirstTwo(name: string): (r: string)
    ensures r <= name && |r| == if |name| < 2 then |name| else 2
  {
    if |name| < 2 then name else name[..2]
  }

  /** extractInitials as written: '?' for an empty name; with at least two
      space-separated pieces after trimming, the first characters of the first
      two pieces; otherwise the first two characters of the untrimmed name. */
  function ExtractInitialsAsWritten(name: string): string
  {
    if name == [] then "?"
    else
      var ws := Split(Trim(name));
      if |ws| >= 2 then ToUpper(FirstOrUndefined(ws[0]) + FirstOrUndefined(ws[1]))
      else ToUpper(FirstTwo(name))
  }

  /** Two spaces between the words make the second piece empty, and its
      missing first character is spliced in as the text "undefined". */
  lemma DoubleSpaceGivesUndefined(name: string)
    requires name == "a  b"
    ensures ExtractInitialsAsWritten(name) == "AUNDEFINED"
  {
    TrimExample();
    SplitExample();
    UpperExample();
    var ws := Split(Trim(name));
    assert ws == ["a", "", "b"];
    assert FirstOrUndefined(ws[0]) + FirstOrUndefined(ws[1]) == "aundefined";
  }

  lemma TrimExample()
    ensures Trim("a  b") == "a  b"
  {
    var s: string := "a  b";
    assert s[0] == 'a' && s[|s| - 1] == 'b';
    assert !IsTrimmed('a') && !IsTrimmed('b');
    assert TrimStart(s) == s;
    assert TrimEnd(s) == s;
  }

  lemma SplitExample()
    ensures Split("a  b") == ["a", "", "b"]
  {
    var s1: string := "a";
    var s2 := s1 + [' '];
    var s3 := s2 + [' '];
    var s4 := s3 + ['b'];
    var e: string := [];
    SplitWord(s1);
    SplitSnoc(s1, ' ');
    Displays(s1, e, e);
    SplitSnoc(s2, ' ');
    SplitSnoc(s3, 'b');
    Displays(s1, e, "b");
    assert e + ['b'] == "b";
    Displays('a', ' ', ' ');
    assert s4 == "a  b";
  }

  /** Small facts about sequence displays used by the examples. */
  lemma Displays<T>(x: T, y: T, z: T)
    ensures [x] + [y] == [x, y]
    ensures [x, y] + [z] == [x, y, z]
    ensures [x, y, z][..2] == [x, y]
  {
  }

  lemma UpperExample()
    ensures ToUpper("aundefined") == "AUNDEFINED"
  {
    var u := ToUpper("aundefined");
    forall i | 0 <= i < 10 ensures u[i] == "AUNDEFINED"[i] {
    }
  }

  /** A word is a non-empty piece. */
  predicate IsWord(w: string)
  {
    w != []
  }

  /** The words of a name: the non-empty pieces between spaces of the
      trimmed name. */
  function Words(name: string): (ws: seq<string>)
    ensures forall w :: w in ws ==> w != [] && ' ' !in w && forall c :: c in w ==> c in name
  {
    var t := Trim(name);
    var ws := Filter(Split(t), IsWord);
    assert forall w, c :: w in ws && c in w ==> c in name by {
      forall w, c | w in ws && c in w ensures c in name {
        JoinHasPieces(Split(t), w, c);
        JoinSplit(t);
        var i := TrimOffset(name);
        var k :| 0 <= k < |t| && t[k] == c;
        assert name[i + k] == c;
      }
    }
    ws
  }

  /** extractInitials as intended: any run of spaces separates two words, so
      the result is one or two characters of the name, upper-cased. */
  function ExtractInitials(name: string): (r: string)
    ensures name == [] ==> r == "?"
    ensures name != [] ==> 1 <= |r| <= 2 && forall c :: c in r ==> exists d :: d in name && c == UpperChar(d)
  {
    if name == [] then "?"
    else
      var ws := Words(name);
      if |ws| >= 2 then
        var w0, w1 := ws[0], ws[1];
        assert w0 in ws && w0[0] in w0;
        assert w1 in ws && w1[0] in w1;
        UpperOfChars([w0[0], w1[0]], name);
        ToUpper([w0[0], w1[0]])
      else
        var f := FirstTwo(name);
        PrefixItems(f, name);
        UpperOfChars(f, name);
        ToUpper(f)
  }

  /** The corrected initials of the name "a  b" are "AB". */
  lemma DoubleSpaceCorrected(name: string)
    requires name == "a  b"
    ensures ExtractInitials(name) == "AB"
  {
    WordsExample();
    var ws := Words(name);
    assert ws[0][0] == 'a' && ws[1][0] == 'b';
    assert [ws[0][0], ws[1][0]] == "ab";
    assert ExtractInitials(name) == ToUpper("ab");
    UpperPairExample();
  }

  lemma UpperPairExample()
    ensures ToUpper("ab") == "AB"
  {
    var u := ToUpper("ab");
    assert u[0] == 'A' && u[1] == 'B';
  }

  lemma WordsExample()
    ensures Words("a  b") == ["a", "b"]
  {
    TrimExample();
    SplitExample();
    WordFilterExample();
  }

  lemma WordFilterExample()
    ensures Filter(["a", "", "b"], IsWord) == ["a", "b"]
  {
    FilterDropMiddle("a", "", "b", IsWord);
  }

  /** Upper-casing characters of `name` gives upper-cased characters of `name`. */
  lemma UpperOfChars(s: string, name: string)
    requires forall x :: x in s ==> x in name
    ensures forall c :: c in ToUpper(s) ==> exists d :: d in name && c == UpperChar(d)
  {
    var u := ToUpper(s);
    forall c | c in u ensures exists d :: d in name && c == UpperChar(d) {
      var i :| 0 <= i < |u| && u[i] == c;
      var d := s[i];
      assert d in s;
      assert c == UpperChar(d);
    }
  }

  /** A string that neither starts nor ends with a space and never has two
      in a row splits into non-empty pieces only. */
  lemma AllPiecesNonEmpty(t: string)
    requires t != [] && t[0] != ' ' && t[|t| - 1] != ' '
    requires NoDoubleSpace(t)
    ensures forall w :: w in Split(t) ==> w != []
  {
    SplitInnerPiecesNonEmpty(t);
    var ps := Split(t);
    forall w | w in ps ensures w != [] {
      var i :| 0 <= i < |ps| && ps[i] == w;
    }
  }

  /** Where the trimmed name never has two spaces in a row, its words are
      exactly its pieces. */
  lemma WordsArePieces(name: string)
    requires NoDoubleSpace(Trim(name))
    ensures Trim(name) != [] ==> Words(name) == Split(Trim(name))
    ensures Trim(name) == [] ==> Words(name) == [] && Split(Trim(name)) == [[]]
  {
    var t := Trim(name);
    if t != [] {
      TrimRemovesWhiteSpace(name);
      AllPiecesNonEmpty(t);
      FilterAll(Split(t), IsWord);
    } else {
      assert Split(t) == [[]];
      assert Filter([[]], IsWord) == [];
    }
  }

  /** Where the trimmed name never has two spaces in a row, the code as
      written already gives the intended initials. */
  lemma InitialsAgreeWithoutDoubleSpace(name: string)
    requires NoDoubleSpace(Trim(name))
    ensures ExtractInitialsAsWritten(name) == ExtractInitials(name)
  {
    WordsArePieces(name);
    if name != [] {
      var ws := Split(Trim(name));
      if |ws| >= 2 {
        assert Words(name) == ws;
        assert ws[0] in ws && ws[1] in ws;
        InitialsOfPieces(ws);
      }
    }
  }

  /** With non-empty first two pieces, the code as written takes their first
      characters. */
  lemma InitialsOfPieces(ws: seq<string>)
    requires |ws| >= 2 && ws[0] != [] && ws[1] != []
    ensures ToUpper(FirstOrUndefined(ws[0]) + FirstOrUndefined(ws[1])) == ToUpper([ws[0][0], ws[1][0]])
  {
    Displays(ws[0][0], ws[1][0], ws[1][0]);
  }
}
