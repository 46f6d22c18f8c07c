/** The string edits of the identifier codec: erasing white space, upper case, splitting at dots. */
module Text {

  /** isspace in the C locale. */
  predicate IsSpace(c: char) {
    c == ' ' || 9 <= c as int <= 13
  }

  /** toupper in the C locale. */
  function Upper(c: char): char {
    if 'a' <= c <= 'z' then (c as int - 32) as char else c
  }

  function WithoutSpaces(s: string): (r: string)
    ensures forall c <- r :: !IsSpace(c)
  {
    if s == "" then "" else (if IsSpace(s[0]) then "" else [s[0]]) + WithoutSpaces(s[1..])
  }

  function UpperCase(s: string): (r: string)
    ensures |r| == |s| && forall i :: 0 <= i < |s| ==> r[i] == Upper(s[i])
  {
    seq(|s|, i requires 0 <= i < |s| => Upper(s[i]))
  }

  /** The canonical form of a field: no white space, upper case. */
  function Canon(s: string): (r: string) {
    UpperCase(WithoutSpaces(s))
  }

  predicate Blank(s: string) {
    forall c <- s :: IsSpace(c)
  }

  predicate DotFree(s: string) {
    '.' !in s
  }

  /** std::remove_if followed by erase: the kept characters are moved to the front in order. */
  method EraseSpaces(s: string) returns (r: string)
    ensures r == WithoutSpaces(s)
  {
    r := "";
    for i := 0 to |s|
      invariant r == WithoutSpaces(s[..i])
    {
      WithoutSpacesAppends(s[..i], [s[i]]);
      assert s[..i + 1] == s[..i] + [s[i]];
      if !IsSpace(s[i]) {
        r := r + [s[i]];
      }
    }
    assert s[..|s|] == s;
  }

  /** std::transform with toupper, writing each character back over itself. */
  method TransformToUpper(s: string) returns (r: string)
    ensures r == UpperCase(s)
    ensures |r| == |s|
    ensures forall i :: 0 <= i < |s| ==>
              if 'a' <= s[i] <= 'z' then r[i] as int == s[i] as int - 32 else r[i] == s[i]
  {
    r := s;
    for i := 0 to |s|
      invariant |r| == |s|
      invariant forall k :: 0 <= k < i ==> r[k] == Upper(s[k])
      invariant forall k :: i <= k < |s| ==> r[k] == s[k]
    {
      r := r[i := Upper(r[i])];
    }
  }

  lemma {:induction false} WithoutSpacesAppends(a: string, b: string)
    ensures WithoutSpaces(a + b) == WithoutSpaces(a) + WithoutSpaces(b)
  {
    if a == "" {
      assert a + b == b;
    } else {
      assert (a + b)[1..] == a[1..] + b;
      WithoutSpacesAppends(a[1..], b);
    }
  }

  lemma CanonAppends(a: string, b: string)
    ensures Canon(a + b) == Canon(a) + Canon(b)
  {
    WithoutSpacesAppends(a, b);
  }

  lemma {:induction false} WithoutSpacesKeepsTheRest(s: string)
    ensures forall c :: c in WithoutSpaces(s) <==> c in s && !IsSpace(c)
  {
    if s != "" {
      WithoutSpacesKeepsTheRest(s[1..]);
      assert forall c :: c in s <==> c == s[0] || c in s[1..];
    }
  }

  lemma {:induction false} NothingToErase(s: string)
    requires forall c <- s :: !IsSpace(c)
    ensures WithoutSpaces(s) == s
  {
    if s != "" {
      NothingToErase(s[1..]);
    }
  }

  lemma NothingLeftIffBlank(s: string)
    ensures WithoutSpaces(s) == "" <==> Blank(s)
  {
  }

  lemma UpperKeepsSpacesAndDots(c: char)
    ensures Upper(Upper(c)) == Upper(c)
    ensures Upper(c) == '.' <==> c == '.'
    ensures IsSpace(Upper(c)) <==> IsSpace(c)
  {
  }

  /** A canonical form is empty exactly for a blank field, keeps dots, and is its own canonical form. */
  lemma CanonFacts(s: string)
    ensures Canon(s) == "" <==> Blank(s)
    ensures DotFree(Canon(s)) <==> DotFree(s)
    ensures Canon(Canon(s)) == Canon(s)
  {
    var w := WithoutSpaces(s);
    WithoutSpacesKeepsTheRest(s);
    assert w == "" ==> Blank(s);
    if w != "" {
      assert w[0] in s && !IsSpace(w[0]);
    }
    forall i | 0 <= i < |w|
      ensures Upper(Canon(s)[i]) == Canon(s)[i] && !IsSpace(Canon(s)[i]) && (Canon(s)[i] == '.' <==> w[i] == '.')
    {
      UpperKeepsSpacesAndDots(w[i]);
    }
    NothingToErase(Canon(s));
    if '.' in w {
      var i :| 0 <= i < |w| && w[i] == '.';
      assert Canon(s)[i] == '.';
    }
  }

  // ---------------------------------------------------------------- what canonical means

  /** Blanks, tabs and the characters that break lines or pages, one by one. */
  predicate IsGap(c: char) {
    c == ' ' || c == '\t' || c == '\n' || c == '\r' || c as int == 11 || c as int == 12
  }

  predicate IsLower(c: char) {
    'a' <= c <= 'z'
  }

  /** The same character but for its case. */
  predicate SameLetter(c: char, d: char) {
    c == d || (IsLower(c) && c as int == d as int + 32) || (IsLower(d) && d as int == c as int + 32)
  }

  /** The same text but for gaps and the case of letters. */
  predicate Alike(a: string, b: string)
    decreases |a| + |b|
  {
    if a != "" && IsGap(a[0]) then Alike(a[1..], b)
    else if b != "" && IsGap(b[0]) then Alike(a, b[1..])
    else if a == "" || b == "" then a == b
    else SameLetter(a[0], b[0]) && Alike(a[1..], b[1..])
  }

  /** Nothing to edit: no gaps, no lower case. */
  predicate Tidy(s: string) {
    forall c <- s :: !IsGap(c) && !IsLower(c)
  }

  lemma UpperFacts(c: char, d: char)
    ensures IsSpace(c) <==> IsGap(c)
    ensures Upper(c) == Upper(d) <==> SameLetter(c, d)
    ensures !IsLower(Upper(c)) && (IsGap(Upper(c)) <==> IsGap(c))
    ensures !IsLower(c) ==> Upper(c) == c
  {
  }

  lemma CanonOfOne(c: char)
    ensures Canon([c]) == if IsGap(c) then "" else [Upper(c)]
  {
    assert [c][1..] == "";
    assert WithoutSpaces([c]) == if IsSpace(c) then "" else [c];
  }

  lemma CanonUnfolds(s: string)
    ensures Canon("") == ""
    ensures s != "" ==> Canon(s) == (if IsGap(s[0]) then "" else [Upper(s[0])]) + Canon(s[1..])
  {
    if s != "" {
      assert s == [s[0]] + s[1..];
      CanonAppends([s[0]], s[1..]);
      CanonOfOne(s[0]);
    }
  }

  lemma FirstAndRest(x: char, a: string, y: char, b: string)
    ensures [x] + a == [y] + b <==> x == y && a == b
  {
    assert ([x] + a)[0] == x && ([x] + a)[1..] == a;
    assert ([y] + b)[0] == y && ([y] + b)[1..] == b;
  }

  /** Two texts have one canonical form exactly when they differ in gaps and case only. */
  lemma {:induction false} SameCanonIffAlike(a: string, b: string)
    ensures Canon(a) == Canon(b) <==> Alike(a, b)
    decreases |a| + |b|
  {
    CanonUnfolds(a);
    CanonUnfolds(b);
    if a != "" && IsGap(a[0]) {
      SameCanonIffAlike(a[1..], b);
    } else if b != "" && IsGap(b[0]) {
      SameCanonIffAlike(a, b[1..]);
    } else if a != "" && b != "" {
      UpperFacts(a[0], b[0]);
      FirstAndRest(Upper(a[0]), Canon(a[1..]), Upper(b[0]), Canon(b[1..]));
      SameCanonIffAlike(a[1..], b[1..]);
    }
  }

  lemma {:induction false} TidyIsKept(s: string)
    requires Tidy(s)
    ensures Canon(s) == s
  {
    CanonUnfolds(s);
    if s != "" {
      UpperFacts(s[0], s[0]);
      TidyIsKept(s[1..]);
      assert s == [s[0]] + s[1..];
    }
  }

  lemma {:induction false} CanonIsTidy(s: string)
    ensures Tidy(Canon(s))
  {
    CanonUnfolds(s);
    if s != "" {
      UpperFacts(s[0], s[0]);
      CanonIsTidy(s[1..]);
    }
  }

  /** The canonical form is the one tidy text that differs from the field in gaps and case only. */
  lemma CanonIsTheTidyForm(s: string, t: string)
    ensures t == Canon(s) <==> Tidy(t) && Alike(s, t)
  {
    CanonIsTidy(s);
    TidyIsKept(Canon(s));
    SameCanonIffAlike(s, Canon(s));
    if Tidy(t) && Alike(s, t) {
      SameCanonIffAlike(s, t);
      TidyIsKept(t);
    }
  }

  // ---------------------------------------------------------------- splitting

  /** boost::algorithm::split at dots, empty pieces kept. */
  function Split(s: string): (pieces: seq<string>)
    ensures |pieces| >= 1
  {
    if s == "" then [""]
    else
      var rest := Split(s[1..]);
      if s[0] == '.' then [""] + rest else [[s[0]] + rest[0]] + rest[1..]
  }

  lemma AppendedPieces(c: char, front: seq<string>, back: seq<string>)
    requires front != []
    ensures [""] + (front + back) == ([""] + front) + back
    ensures [[c] + (front + back)[0]] + (front + back)[1..] == ([[c] + front[0]] + front[1..]) + back
  {
  }

  lemma {:induction false} SplitAtDot(a: string, b: string)
    ensures Split(a + "." + b) == Split(a) + Split(b)
  {
    if a == "" {
      assert a + "." + b == "." + b;
      assert ("." + b)[1..] == b;
    } else {
      assert (a + "." + b)[0] == a[0] && (a + "." + b)[1..] == a[1..] + "." + b;
      SplitAtDot(a[1..], b);
      AppendedPieces(a[0], Split(a[1..]), Split(b));
    }
  }

  lemma {:induction false} SplitOnePiece(s: string)
    ensures |Split(s)| == 1 <==> DotFree(s)
    ensures DotFree(s) ==> Split(s) == [s]
  {
    if s != "" {
      SplitOnePiece(s[1..]);
      assert s == [s[0]] + s[1..];
    }
  }

  function Joined(pieces: seq<string>): string
    requires pieces != []
  {
    if |pieces| == 1 then pieces[0] else pieces[0] + "." + Joined(pieces[1..])
  }

  lemma JoinedOfPair(p: string, rest: seq<string>)
    requires rest != []
    ensures Joined([p] + rest) == p + "." + Joined(rest)
  {
    assert ([p] + rest)[1..] == rest;
  }

  lemma JoinedGrows(c: char, p: string, rest: seq<string>)
    ensures Joined([[c] + p] + rest) == [c] + Joined([p] + rest)
  {
    if rest == [] {
      assert [[c] + p] + rest == [[c] + p] && [p] + rest == [p];
    } else {
      JoinedOfPair([c] + p, rest);
      JoinedOfPair(p, rest);
      assert ([c] + p) + "." + Joined(rest) == [c] + (p + "." + Joined(rest));
    }
  }

  /** Splitting loses nothing. */
  lemma {:induction false} JoinedIsWhole(s: string)
    ensures Joined(Split(s)) == s
  {
    if s != "" {
      var rest := Split(s[1..]);
      JoinedIsWhole(s[1..]);
      assert s == [s[0]] + s[1..];
      if s[0] == '.' {
        JoinedOfPair("", rest);
      } else {
        assert rest == [rest[0]] + rest[1..];
        JoinedGrows(s[0], rest[0], rest[1..]);
      }
    }
  }

  lemma {:induction false} PiecesAreDotFree(s: string, i: nat)
    requires i < |Split(s)|
    ensures DotFree(Split(s)[i])
  {
    if s != "" {
      var rest := Split(s[1..]);
      if s[0] != '.' {
        PiecesAreDotFree(s[1..], i);
      } else if i > 0 {
        PiecesAreDotFree(s[1..], i - 1);
      }
    }
  }

  lemma JoinedOfThree(a: string, b: string, c: string)
    ensures Joined([a, b, c]) == a + "." + b + "." + c
  {
    JoinedOfPair(b, [c]);
    JoinedOfPair(a, [b] + [c]);
    assert [a] + ([b] + [c]) == [a, b, c];
    assert a + "." + (b + "." + c) == a + "." + b + "." + c;
  }

  lemma JoinedOfFour(a: string, b: string, c: string, d: string)
    ensures Joined([a, b, c, d]) == a + "." + b + "." + c + "." + d
  {
    JoinedOfThree(b, c, d);
    JoinedOfPair(a, [b, c, d]);
    assert [a] + [b, c, d] == [a, b, c, d];
    assert a + "." + (b + "." + c + "." + d) == a + "." + b + "." + c + "." + d;
  }

  lemma SplitOfPair(a: string, b: string)
    ensures Split(a + "." + b) == Split(a) + Split(b)
    ensures |Split(a)| == 1 <==> DotFree(a)
    ensures DotFree(a) ==> Split(a) == [a]
  {
    SplitAtDot(a, b);
    SplitOnePiece(a);
  }

  lemma RightNested(a: string, b: string, c: string, d: string)
    ensures a + "." + b + "." + c + "." + d == a + "." + (b + "." + (c + "." + d))
  {
  }

  /** Joining four fields with dots and splitting again gives back the fields when none holds a dot,
      and more than four pieces otherwise. */
  lemma SplitOfJoined(a: string, b: string, c: string, d: string)
    ensures |Split(a + "." + b + "." + c + "." + d)| >= 4
    ensures |Split(a + "." + b + "." + c + "." + d)| == 4
            <==> DotFree(a) && DotFree(b) && DotFree(c) && DotFree(d)
    ensures DotFree(a) && DotFree(b) && DotFree(c) && DotFree(d)
            ==> Split(a + "." + b + "." + c + "." + d) == [a, b, c, d]
  {
    RightNested(a, b, c, d);
    SplitOfPair(a, b + "." + (c + "." + d));
    SplitOfPair(b, c + "." + d);
    SplitOfPair(c, d);
    SplitOnePiece(d);
  }

  lemma SplitOfThree(a: string, b: string, c: string)
    requires DotFree(a) && DotFree(b) && DotFree(c)
    ensures Split(a + "." + b + "." + c) == [a, b, c]
  {
    assert a + "." + b + "." + c == a + "." + (b + "." + c);
    SplitOfPair(a, b + "." + c);
    SplitOfPair(b, c);
    SplitOnePiece(c);
  }
}
