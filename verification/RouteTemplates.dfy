/**
 What a path template means as it is written (app/token_payments/api/http.py): literal segments, and parameters in
 braces.
 */
module RouteTemplates {
  import opened Wrappers
  import opened TextTools
  import opened HttpRouting

  datatype Piece = Literal(text: string) | Parameter(name: string)

  /** A literal has no slash and no brace; a name may have braces. */
  predicate IsPiece(piece: Piece) {
    match piece
    case Literal(text) => text != "" && '/' !in text && '{' !in text && '}' !in text
    case Parameter(name) => name != "" && '/' !in name
  }

  function Written(piece: Piece): string {
    match piece
    case Literal(text) => text
    case Parameter(name) => "{" + name + "}"
  }

  function WrittenAll(pieces: seq<Piece>): seq<string> {
    seq(|pieces|, i requires 0 <= i < |pieces| => Written(pieces[i]))
  }

  /** "/first/second/..." */
  function TemplateOf(pieces: seq<Piece>): string {
    "/" + Join(WrittenAll(pieces), "/")
  }

  /** A segment is a parameter exactly if it is a name in braces; and then that is its name. */
  lemma IsParamIff(segment: string)
    ensures IsParam(segment) <==> exists name :: name != "" && segment == "{" + name + "}"
    ensures forall name :: name != "" && segment == "{" + name + "}" ==> IsParam(segment) && NameOf(segment) == name
  {
    if IsParam(segment) {
      var name := segment[1..|segment| - 1];
      assert segment == "{" + name + "}";
    }
    forall name | name != "" && segment == "{" + name + "}" ensures IsParam(segment) && NameOf(segment) == name {
      assert segment[1..|segment| - 1] == name;
    }
  }

  lemma WrittenIs(piece: Piece)
    requires IsPiece(piece)
    ensures '/' !in Written(piece) && Written(piece) != "" && (IsParam(Written(piece)) <==> piece.Parameter?)
    ensures piece.Parameter? ==> NameOf(Written(piece)) == piece.name
  {
    IsParamIff(Written(piece));
    if piece.Literal? {
      assert !IsParam(Written(piece));
    }
  }

  lemma TemplateSegments(pieces: seq<Piece>)
    requires forall piece :: piece in pieces ==> IsPiece(piece)
    ensures PathSegments(TemplateOf(pieces)) == WrittenAll(pieces)
  {
    var segments := WrittenAll(pieces);
    forall i | 0 <= i < |segments| ensures '/' !in segments[i] && segments[i] != "" {
      assert pieces[i] in pieces;
      WrittenIs(pieces[i]);
    }
    SegmentsOfPath(segments);
  }

  /** A template passes exactly if its parameters have distinct names that are not blank. */
  lemma TemplateValidIff(pieces: seq<Piece>)
    requires forall piece :: piece in pieces ==> IsPiece(piece)
    ensures ValidTemplate(PathSegments(TemplateOf(pieces))) <==>
      && (forall i, j :: 0 <= i < j < |pieces| && pieces[i].Parameter? ==> pieces[i] != pieces[j])
      && forall i :: 0 <= i < |pieces| && pieces[i].Parameter? ==> HasText(pieces[i].name)
  {
    TemplateSegments(pieces);
    var segments := WrittenAll(pieces);
    forall i | 0 <= i < |pieces| ensures
        (IsParam(segments[i]) <==> pieces[i].Parameter?) &&
        (pieces[i].Parameter? ==> NameOf(segments[i]) == pieces[i].name) {
      assert pieces[i] in pieces;
      WrittenIs(pieces[i]);
    }
    forall i | 0 <= i < |pieces| ensures
        ValidSegment(segments[i]) <==> (pieces[i].Parameter? ==> HasText(pieces[i].name)) {
      assert pieces[i] in pieces;
    }
  }

  /** A segment with a brace that is not a parameter never passes. */
  lemma BracesValidIff(segment: string)
    ensures ValidSegment(segment) <==>
      || ('{' !in segment && '}' !in segment)
      || exists name :: HasText(name) && segment == "{" + name + "}"
  {
    IsParamIff(segment);
    if IsParam(segment) {
      assert '{' in segment;
    }
  }

  /** The piece at this place is the last parameter with its name. */
  predicate IsLastOf(pieces: seq<Piece>, i: int) {
    0 <= i < |pieces| && pieces[i].Parameter? && forall j :: i < j < |pieces| ==> pieces[j] != pieces[i]
  }

  lemma {:induction false} BindingAt(pieces: seq<Piece>, path: seq<string>, i: int)
    requires |pieces| == |path| && (forall piece :: piece in pieces ==> IsPiece(piece)) && IsLastOf(pieces, i)
    ensures var bindings := ParamsOf(WrittenAll(pieces), path);
      pieces[i].name in bindings && bindings[pieces[i].name] == path[i]
  {
    var last := |pieces| - 1;
    WrittenIs(pieces[last]);
    assert WrittenAll(pieces)[..last] == WrittenAll(pieces[..last]);
    if i < last {
      BindingAt(pieces[..last], path[..last], i);
      assert pieces[last] != pieces[i];
    }
  }

  lemma {:induction false} LastIndex(pieces: seq<Piece>, i: nat) returns (last: nat)
    requires i < |pieces| && pieces[i].Parameter?
    ensures IsLastOf(pieces, last) && pieces[last] == pieces[i]
    decreases |pieces| - i
  {
    if j :| i < j < |pieces| && pieces[j] == pieces[i] {
      last := LastIndex(pieces, j);
    } else {
      last := i;
    }
  }

  lemma BindingOf(pieces: seq<Piece>, path: seq<string>, name: string) returns (i: nat)
    requires |pieces| == |path| && (forall piece :: piece in pieces ==> IsPiece(piece))
    requires name in ParamsOf(WrittenAll(pieces), path)
    ensures IsLastOf(pieces, i) && pieces[i].name == name
  {
    var written := WrittenAll(pieces);
    ParamsOfKeys(written, path);
    assert name in NamesOf(written);
    var segment :| segment in written && IsParam(segment) && NameOf(segment) == name;
    var k :| 0 <= k < |written| && written[k] == segment;
    assert pieces[k] in pieces;
    WrittenIs(pieces[k]);
    i := LastIndex(pieces, k);
  }

  /** A path matches a template exactly if it starts with a slash, has as many segments and the same literals; each
      name is then bound to the segment where its last parameter stands, and nothing else is bound. */
  lemma TemplateMeaning(pieces: seq<Piece>, path: string)
    requires forall piece :: piece in pieces ==> IsPiece(piece)
    ensures var segments := PathSegments(path); var r := MatchPath(TemplateOf(pieces), path);
      && (r.Some? <==>
            && path != "" && path[0] == '/' && |segments| == |pieces|
            && forall i :: 0 <= i < |pieces| && pieces[i].Literal? ==> segments[i] == pieces[i].text)
      && (r.Some? ==>
            && (forall i :: IsLastOf(pieces, i) ==>
                  pieces[i].name in r.value && r.value[pieces[i].name] == segments[i])
            && forall name :: name in r.value ==> exists i :: IsLastOf(pieces, i) && pieces[i].name == name)
  {
    TemplateSegments(pieces);
    forall i | 0 <= i < |pieces| ensures IsParam(WrittenAll(pieces)[i]) <==> pieces[i].Parameter? {
      assert pieces[i] in pieces;
      WrittenIs(pieces[i]);
    }
    var segments := PathSegments(path);
    if |segments| == |pieces| {
      forall i | IsLastOf(pieces, i)
        ensures pieces[i].name in ParamsOf(WrittenAll(pieces), segments)
        ensures ParamsOf(WrittenAll(pieces), segments)[pieces[i].name] == segments[i]
      {
        BindingAt(pieces, segments, i);
      }
      forall name | name in ParamsOf(WrittenAll(pieces), segments)
        ensures exists i :: IsLastOf(pieces, i) && pieces[i].name == name
      {
        var i := BindingOf(pieces, segments, name);
      }
    }
  }

  // ----- slashes around a path -----

  function Slashes(n: nat): string {
    seq(n, i => '/')
  }

  lemma {:induction false} LeftSlashes(n: nat, s: string)
    requires s != [] && s[0] != '/'
    ensures StripLeft(Slashes(n) + s, IsSlash) == s
  {
    if n == 0 {
      assert Slashes(0) + s == s;
    } else {
      assert (Slashes(n) + s)[1..] == Slashes(n - 1) + s;
      LeftSlashes(n - 1, s);
    }
  }

  lemma {:induction false} RightSlashes(s: string, n: nat)
    requires s != [] && s[|s| - 1] != '/'
    ensures StripRight(s + Slashes(n), IsSlash) == s
  {
    var t := s + Slashes(n);
    if n == 0 {
      assert t == s;
    } else {
      assert t[..|t| - 1] == s + Slashes(n - 1);
      RightSlashes(s, n - 1);
    }
  }

  lemma StripSlashes(j: string, before: nat, after: nat)
    requires j != [] && j[0] != '/' && j[|j| - 1] != '/'
    ensures Strip(Slashes(before) + j + Slashes(after), IsSlash) == j
  {
    var rest := j + Slashes(after);
    assert Slashes(before) + j + Slashes(after) == Slashes(before) + rest;
    LeftSlashes(before, rest);
    RightSlashes(j, after);
  }

  /** Any number of slashes before and after leaves the segments as they are. */
  lemma SlashesDoNotMatter(segments: seq<string>, before: nat, after: nat)
    requires segments != [] && segments[0] != "" && segments[|segments| - 1] != ""
    requires forall i :: 0 <= i < |segments| ==> '/' !in segments[i]
    ensures PathSegments(Slashes(before) + Join(segments, "/") + Slashes(after)) == segments
  {
    var j := Join(segments, "/");
    JoinEnds(segments);
    assert segments[0][0] in segments[0];
    var last := segments[|segments| - 1];
    assert last[|last| - 1] in last && '/' !in last;
    StripSlashes(j, before, after);
    var path := Slashes(before) + j + Slashes(after);
    assert path[before] == j[0];
    assert ['/'] == "/";
    SplitJoin(segments, '/');
  }

  // ----- what a route is registered as -----

  const LOWER_CASE := "abcdefghijklmnopqrstuvwxyz"
  const UPPER_CASE := "ABCDEFGHIJKLMNOPQRSTUVWXYZ"

  lemma UpperLetter(k: nat)
    requires k < 26
    ensures Upper([LOWER_CASE[k]]) == [UPPER_CASE[k]]
  {
    assert LOWER_CASE[k] as int == 97 + k && UPPER_CASE[k] as int == 65 + k;
  }

  lemma UpperOther(c: char)
    requires c < 'a' || 'z' < c
    ensures Upper([c]) == [c]
  {
  }

  lemma UpperByLetter(s: string)
    ensures |Upper(s)| == |s| && forall i :: 0 <= i < |s| ==> [Upper(s)[i]] == Upper([s[i]])
  {
  }

  /** A route has the stripped texts, and its method in upper case, letter by letter. */
  lemma RegisteredAs(verb: string, template: string, operation: Option<string>)
    ensures var route := RouteOfTexts(verb, template, operation); var m := Strip(verb, IsSpace);
      && route.template == Strip(template, IsSpace) && |route.verb| == |m|
      && (forall i :: 0 <= i < |m| ==> [route.verb[i]] == Upper([m[i]]))
      && (operation.None? ==> route.operation.None?)
      && (operation.Some? ==> route.operation == Some(Strip(operation.value, IsSpace)))
  {
    UpperByLetter(Strip(verb, IsSpace));
  }
}
