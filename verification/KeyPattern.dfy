/**
 Parsing key patterns (aws/dynamo/tag.go, parseKeyFormat). The parser cuts the pattern up by searching
 for braces; the specification reads it one character at a time. `fields` are the names of the struct's
 fields and `self` is the name of the field that carries the tag, which `{}` stands for.
 */
module KeyPattern {

  import opened Strings
  import opened KeyFormat

  datatype Parse = Parsed(segments: seq<Segment>) | Unclosed | UnknownField(name: string)

  /** The first field with the given name, or -1. */
  function FieldIndex(fields: seq<string>, name: string): (r: int)
    ensures r == -1 <==> name !in fields
    ensures r != -1 ==> 0 <= r < |fields| && fields[r] == name && name !in fields[..r]
  {
    if fields == [] then -1
    else if fields[|fields| - 1] == name && name !in fields[..|fields| - 1] then |fields| - 1
    else FieldIndex(fields[..|fields| - 1], name)
  }

  method StructFieldIndex(fields: seq<string>, name: string) returns (r: int)
    ensures r == FieldIndex(fields, name)
  {
    var i := 0;
    while i < |fields|
      invariant 0 <= i <= |fields| && name !in fields[..i]
    {
      if fields[i] == name {
        assert fields[FieldIndex(fields, name)] == name;
        return i;
      }
      i := i + 1;
    }
    return -1;
  }

  // ----- Specification: reading a pattern character by character -----

  datatype Token = Text(text: string) | Name(name: string)

  /** The tokens read, and whether the pattern ended outside a placeholder. */
  datatype Scan = Scan(tokens: seq<Token>, closed: bool)

  function WithText(text: string, s: Scan): Scan {
    if text == "" then s else Scan([Text(text)] + s.tokens, s.closed)
  }

  /** Reading outside a placeholder, with `text` read since the last one. */
  function Outside(p: string, text: string): Scan
    decreases |p|
  {
    if p == "" then WithText(text, Scan([], true))
    else if p[0] == '{' then WithText(text, Inside(p[1..], ""))
    else Outside(p[1..], text + [p[0]])
  }

  /** Reading inside a placeholder, with `name` read so far. */
  function Inside(p: string, name: string): Scan
    decreases |p|
  {
    if p == "" then Scan([], false)
    else if p[0] == '}' then
      var s := Outside(p[1..], "");
      Scan([Name(name)] + s.tokens, s.closed)
    else Inside(p[1..], name + [p[0]])
  }

  function NameOr(name: string, self: string): string {
    if name == "" then self else name
  }

  function After(segs: seq<Segment>, r: Parse): Parse {
    if r.Parsed? then Parsed(segs + r.segments) else r
  }

  /** Resolve the names in order; the first unknown one is an error, then an unclosed placeholder. */
  function Resolved(tokens: seq<Token>, closed: bool, self: string, fields: seq<string>): Parse {
    if tokens == [] then
      if closed then Parsed([]) else Unclosed
    else
      match tokens[0]
      case Text(text) => After([Literal(text)], Resolved(tokens[1..], closed, self, fields))
      case Name(name) =>
        var i := FieldIndex(fields, NameOr(name, self));
        if i == -1 then UnknownField(NameOr(name, self))
        else After([Field(i)], Resolved(tokens[1..], closed, self, fields))
  }

  function ScanResolved(s: Scan, self: string, fields: seq<string>): Parse {
    Resolved(s.tokens, s.closed, self, fields)
  }

  function Meaning(pattern: string, self: string, fields: seq<string>): Parse {
    ScanResolved(Outside(pattern, ""), self, fields)
  }

  // ----- The parser -----

  lemma {:induction false} OutsideSkips(p: string, text: string, n: nat)
    requires n <= |p| && '{' !in p[..n]
    ensures Outside(p, text) == Outside(p[n..], text + p[..n])
  {
    if n == 0 {
      assert p[0..] == p && text + p[..0] == text;
    } else {
      assert p[..n][0] == p[0] && p[1..][..n - 1] == p[..n][1..];
      OutsideSkips(p[1..], text + [p[0]], n - 1);
      assert p[1..][n - 1..] == p[n..];
      assert text + [p[0]] + p[1..][..n - 1] == text + p[..n];
    }
  }

  lemma {:induction false} InsideSkips(p: string, name: string, n: nat)
    requires n <= |p| && '}' !in p[..n]
    ensures Inside(p, name) == Inside(p[n..], name + p[..n])
  {
    if n == 0 {
      assert p[0..] == p && name + p[..0] == name;
    } else {
      assert p[..n][0] == p[0] && p[1..][..n - 1] == p[..n][1..];
      InsideSkips(p[1..], name + [p[0]], n - 1);
      assert p[1..][n - 1..] == p[n..];
      assert name + [p[0]] + p[1..][..n - 1] == name + p[..n];
    }
  }

  lemma {:induction false} NotBefore(p: string, c: char, n: nat)
    requires n <= |p| && forall j :: 0 <= j < n ==> !At(p, [c], j)
    ensures c !in p[..n]
  {
    forall j | 0 <= j < n
      ensures p[j] != c
    {
      CharAt(p, c, j);
    }
  }

  /** The three ways the parser goes on, by what the rest of the pattern means. */
  lemma {:induction false} NoPlaceholder(rest: string, self: string, fields: seq<string>)
    requires rest != "" && Index(rest, "{") == -1
    ensures Meaning(rest, self, fields) == Parsed([Literal(rest)])
  {
    NotBefore(rest, '{', |rest|);
    OutsideSkips(rest, "", |rest|);
    assert "" + rest[..|rest|] == rest && rest[|rest|..] == "";
    ResolvedText(rest, Scan([], true), self, fields);
  }

  function Leading(text: string): seq<Segment> {
    if text == "" then [] else [Literal(text)]
  }

  lemma {:induction false} TextBefore(rest: string, open: nat, self: string, fields: seq<string>)
    requires Index(rest, "{") == open
    ensures open < |rest| && rest[open] == '{'
    ensures Meaning(rest, self, fields)
            == After(Leading(rest[..open]), ScanResolved(Inside(rest[open + 1..], ""), self, fields))
  {
    NotBefore(rest, '{', open);
    CharAt(rest, '{', open);
    OutsideSkips(rest, "", open);
    assert "" + rest[..open] == rest[..open];
    assert rest[open..][1..] == rest[open + 1..];
    var inner := Inside(rest[open + 1..], "");
    ResolvedText(rest[..open], inner, self, fields);
    var r := ScanResolved(inner, self, fields);
    assert r.Parsed? ==> [] + r.segments == r.segments;
  }

  lemma {:induction false} UnclosedPlaceholder(rest: string, open: nat, self: string, fields: seq<string>)
    requires Index(rest, "{") == open && open <= |rest| && Index(rest[open..], "}") == -1
    ensures Meaning(rest, self, fields) == Unclosed
  {
    TextBefore(rest, open, self, fields);
    NotBefore(rest[open..], '}', |rest| - open);
    assert rest[open..][..|rest| - open] == rest[open..];
    assert rest[open + 1..] == rest[open..][1..];
    UnclosedInside(rest[open + 1..]);
  }

  lemma {:induction false} Placeholder(rest: string, open: nat, close: nat, self: string, fields: seq<string>)
    requires Index(rest, "{") == open && open <= |rest| && Index(rest[open..], "}") == close
    ensures open + 1 <= open + close < |rest|
    ensures var name := NameOr(rest[open + 1..open + close], self);
            var idx := FieldIndex(fields, name);
            Meaning(rest, self, fields) ==
              if idx == -1 then UnknownField(name)
              else After(Leading(rest[..open]) + [Field(idx)], Meaning(rest[open + close + 1..], self, fields))
  {
    TextBefore(rest, open, self, fields);
    CharAt(rest[open..], '}', close);
    NotBefore(rest[open..], '}', close);
    ClosedInside(rest, open, close);
    var next := Outside(rest[open + close + 1..], "");
    var inner := Inside(rest[open + 1..], "");
    assert inner.tokens[1..] == next.tokens;
    var idx := FieldIndex(fields, NameOr(rest[open + 1..open + close], self));
    if idx != -1 {
      AfterAfter(Leading(rest[..open]), [Field(idx)], ScanResolved(next, self, fields));
    }
  }

  method ParseKeyFormat(pattern: string, self: string, fields: seq<string>) returns (r: Parse)
    ensures r == Meaning(pattern, self, fields)
  {
    var segments: seq<Segment> := [];
    var rest := pattern;
    ghost var whole := Meaning(pattern, self, fields);
    while |rest| > 0
      invariant After(segments, Meaning(rest, self, fields)) == whole
      decreases |rest|
    {
      var open := Index(rest, "{");
      if open < 0 {
        NoPlaceholder(rest, self, fields);
        return Parsed(segments + [Literal(rest)]);
      }
      ghost var before := segments;
      if open > 0 {
        segments := segments + [Literal(rest[..open])];
      }
      assert segments == before + Leading(rest[..open]);
      var close := Index(rest[open..], "}");
      if close < 0 {
        UnclosedPlaceholder(rest, open, self, fields);
        return Unclosed;
      }
      Placeholder(rest, open, close, self, fields);
      var name := rest[open + 1..open + close];
      if name == "" {
        name := self;
      }
      var idx := StructFieldIndex(fields, name);
      if idx == -1 {
        return UnknownField(name);
      }
      segments := segments + [Field(idx)];
      assert segments == before + (Leading(rest[..open]) + [Field(idx)]);
      rest := rest[open + close + 1..];
      AfterAfter(before, segments[|before|..], Meaning(rest, self, fields));
    }
    return Parsed(segments);
  }

  lemma {:induction false} ResolvedText(text: string, s: Scan, self: string, fields: seq<string>)
    ensures ScanResolved(WithText(text, s), self, fields) ==
            if text == "" then ScanResolved(s, self, fields)
            else After([Literal(text)], ScanResolved(s, self, fields))
  {
    if text != "" {
      assert ([Text(text)] + s.tokens)[1..] == s.tokens;
    }
  }

  lemma {:induction false} AfterAfter(a: seq<Segment>, b: seq<Segment>, r: Parse)
    ensures After(a, After(b, r)) == After(a + b, r)
  {
    if r.Parsed? {
      assert a + (b + r.segments) == (a + b) + r.segments;
    }
  }

  lemma {:induction false} UnclosedInside(p: string)
    requires '}' !in p
    ensures Inside(p, "") == Scan([], false)
  {
    assert p[..|p|] == p && p[|p|..] == "";
    InsideSkips(p, "", |p|);
  }

  lemma {:induction false} ClosedInside(rest: string, open: nat, close: nat)
    requires open < |rest| && rest[open] == '{'
    requires open + close < |rest| && rest[open + close] == '}' && '}' !in rest[open..][..close]
    ensures close >= 1
    ensures var next := Outside(rest[open + close + 1..], "");
            Inside(rest[open + 1..], "") == Scan([Name(rest[open + 1..open + close])] + next.tokens, next.closed)
  {
    var q := rest[open + 1..];
    assert q[..close - 1] == rest[open..][..close][1..];
    InsideSkips(q, "", close - 1);
    assert "" + q[..close - 1] == rest[open + 1..open + close];
    assert q[close - 1..] == rest[open + close..];
    assert rest[open + close..][1..] == rest[open + close + 1..];
  }

  // ----- What a parsed format looks like -----

  predicate GoodTokens(tokens: seq<Token>) {
    tokens != [] ==>
      && GoodTokens(tokens[1..])
      && (match tokens[0]
          case Text(text) => text != "" && '{' !in text && (|tokens| > 1 ==> tokens[1].Name?)
          case Name(name) => '}' !in name)
  }

  lemma {:induction false} OutsideGood(p: string, text: string)
    requires '{' !in text
    ensures GoodTokens(Outside(p, text).tokens)
    decreases |p|
  {
    if p != "" {
      if p[0] == '{' {
        InsideGood(p[1..], "");
        assert ([Text(text)] + Inside(p[1..], "").tokens)[1..] == Inside(p[1..], "").tokens;
      } else {
        OutsideGood(p[1..], text + [p[0]]);
      }
    }
  }

  lemma {:induction false} InsideGood(p: string, name: string)
    requires '}' !in name
    ensures GoodTokens(Inside(p, name).tokens)
    ensures Inside(p, name).tokens != [] ==> Inside(p, name).tokens[0].Name?
    decreases |p|
  {
    if p != "" {
      if p[0] == '}' {
        OutsideGood(p[1..], "");
        assert Inside(p, name).tokens[1..] == Outside(p[1..], "").tokens;
      } else {
        InsideGood(p[1..], name + [p[0]]);
      }
    }
  }

  /** Literals are never empty, never hold an opening brace and never follow one another. */
  predicate WellFormed(segs: seq<Segment>, n: nat) {
    segs != [] ==>
      && WellFormed(segs[1..], n)
      && (match segs[0]
          case Literal(text) => text != "" && '{' !in text && (|segs| > 1 ==> segs[1].Field?)
          case Field(i) => i < n)
  }

  lemma {:induction false} WellFormedUsable(segs: seq<Segment>, n: nat)
    requires WellFormed(segs, n)
    ensures InRange(segs, n) && NonEmptyLiterals(segs)
  {
    if segs != [] {
      WellFormedUsable(segs[1..], n);
      assert segs == [segs[0]] + segs[1..];
    }
  }

  /** Parsing succeeds exactly when every placeholder is closed and names a field. */
  lemma {:induction false} ResolvedShape(tokens: seq<Token>, closed: bool, self: string, fields: seq<string>)
    requires GoodTokens(tokens)
    ensures var r := Resolved(tokens, closed, self, fields);
            && (r.Parsed? <==> closed && forall n :: Name(n) in tokens ==> NameOr(n, self) in fields)
            && (r.Parsed? ==> WellFormed(r.segments, |fields|) && |r.segments| == |tokens|
                              && (tokens != [] && tokens[0].Name? ==> r.segments[0].Field?))
  {
    if tokens != [] {
      var rest := Resolved(tokens[1..], closed, self, fields);
      ResolvedShape(tokens[1..], closed, self, fields);
      assert tokens == [tokens[0]] + tokens[1..];
      var r := Resolved(tokens, closed, self, fields);
      if r.Parsed? {
        assert r.segments[1..] == rest.segments;
      }
    }
  }

  /** A parsed format is well-formed, and a pattern parses exactly when it ends outside a placeholder
      and every placeholder names a field. */
  lemma {:induction false} ParsedWellFormed(pattern: string, self: string, fields: seq<string>)
    ensures var r, s := Meaning(pattern, self, fields), Outside(pattern, "");
            && (r.Parsed? <==> s.closed && forall n :: Name(n) in s.tokens ==> NameOr(n, self) in fields)
            && (r.Parsed? ==> WellFormed(r.segments, |fields|) && NonEmptyLiterals(r.segments)
                              && InRange(r.segments, |fields|))
  {
    var s := Outside(pattern, "");
    OutsideGood(pattern, "");
    ResolvedShape(s.tokens, s.closed, self, fields);
    var r := Meaning(pattern, self, fields);
    if r.Parsed? {
      WellFormedUsable(r.segments, |fields|);
    }
  }

  /** Every placeholder among the first `n` tokens names a field. */
  ghost predicate NamesKnown(tokens: seq<Token>, n: nat, self: string, fields: seq<string>)
    requires n <= |tokens|
  {
    forall j :: 0 <= j < n && tokens[j].Name? ==> NameOr(tokens[j].name, self) in fields
  }

  lemma {:induction false} ResolvedErrors(tokens: seq<Token>, closed: bool, self: string, fields: seq<string>)
    ensures var r := Resolved(tokens, closed, self, fields);
            && (r.Unclosed? <==> !closed && NamesKnown(tokens, |tokens|, self, fields))
            && (r.UnknownField? ==>
                  exists i :: && 0 <= i < |tokens| && tokens[i].Name? && NameOr(tokens[i].name, self) == r.name
                              && r.name !in fields && NamesKnown(tokens, i, self, fields))
  {
    if tokens != [] {
      var rest := tokens[1..];
      ResolvedErrors(rest, closed, self, fields);
      assert forall j :: 0 <= j < |rest| ==> rest[j] == tokens[j + 1];
      ErrorsLater(tokens, closed, self, fields);
    }
  }

  lemma {:induction false} ErrorsLater(tokens: seq<Token>, closed: bool, self: string, fields: seq<string>)
    requires tokens != []
    requires var r := Resolved(tokens[1..], closed, self, fields);
             && (r.Unclosed? <==> !closed && NamesKnown(tokens[1..], |tokens[1..]|, self, fields))
             && (r.UnknownField? ==>
                   exists i :: && 0 <= i < |tokens[1..]| && tokens[1..][i].Name?
                               && NameOr(tokens[1..][i].name, self) == r.name
                               && r.name !in fields && NamesKnown(tokens[1..], i, self, fields))
    ensures var r := Resolved(tokens, closed, self, fields);
            && (r.Unclosed? <==> !closed && NamesKnown(tokens, |tokens|, self, fields))
            && (r.UnknownField? ==>
                  exists i :: && 0 <= i < |tokens| && tokens[i].Name? && NameOr(tokens[i].name, self) == r.name
                              && r.name !in fields && NamesKnown(tokens, i, self, fields))
  {
    var rest, r := tokens[1..], Resolved(tokens, closed, self, fields);
    var known := tokens[0].Name? ==> NameOr(tokens[0].name, self) in fields;
    forall n | 0 <= n <= |rest|
      ensures NamesKnown(tokens, n + 1, self, fields) <==> known && NamesKnown(rest, n, self, fields)
    {
      KnownShift(tokens, n, self, fields);
    }
    if r.UnknownField? {
      if known {
        var i :| && 0 <= i < |rest| && rest[i].Name? && NameOr(rest[i].name, self) == r.name
                 && r.name !in fields && NamesKnown(rest, i, self, fields);
        assert tokens[i + 1] == rest[i] && NamesKnown(tokens, i + 1, self, fields);
      } else {
        assert NamesKnown(tokens, 0, self, fields);
      }
    }
  }

  lemma {:induction false} KnownShift(tokens: seq<Token>, n: nat, self: string, fields: seq<string>)
    requires n < |tokens|
    ensures NamesKnown(tokens, n + 1, self, fields) <==>
            (tokens[0].Name? ==> NameOr(tokens[0].name, self) in fields) && NamesKnown(tokens[1..], n, self, fields)
  {
    var rest := tokens[1..];
    if NamesKnown(tokens, n + 1, self, fields) {
      forall j | 0 <= j < n && rest[j].Name?
        ensures NameOr(rest[j].name, self) in fields
      {
        assert rest[j] == tokens[j + 1];
      }
    }
    if (tokens[0].Name? ==> NameOr(tokens[0].name, self) in fields) && NamesKnown(rest, n, self, fields) {
      forall j | 0 <= j < n + 1 && tokens[j].Name?
        ensures NameOr(tokens[j].name, self) in fields
      {
        assert j > 0 ==> tokens[j] == rest[j - 1];
      }
    }
  }

  /** A pattern that does not parse names, in the error, its first placeholder that is not a field; it counts
      as unclosed only if all its placeholders are fields. */
  lemma {:induction false} ParseErrors(pattern: string, self: string, fields: seq<string>)
    ensures var r, s := Meaning(pattern, self, fields), Outside(pattern, "");
            && (r.Unclosed? <==> !s.closed && NamesKnown(s.tokens, |s.tokens|, self, fields))
            && (r.UnknownField? ==>
                  exists i :: && 0 <= i < |s.tokens| && s.tokens[i].Name? && NameOr(s.tokens[i].name, self) == r.name
                              && r.name !in fields && NamesKnown(s.tokens, i, self, fields))
  {
    var s := Outside(pattern, "");
    ResolvedErrors(s.tokens, s.closed, self, fields);
  }

  // ----- Rendering back -----

  /** The pattern a format came from. */
  function Render(segs: seq<Segment>, fields: seq<string>): string
    requires InRange(segs, |fields|)
  {
    if segs == [] then ""
    else (if segs[0].Literal? then segs[0].text else "{" + fields[segs[0].index] + "}") + Render(segs[1..], fields)
  }

  datatype Place = Out | JustOpened | In

  /** The pattern copied character by character, with `self` put in wherever a placeholder closes as
      soon as it opens. */
  function Expanded(p: string, self: string, at: Place): string {
    if p == "" then ""
    else
      match at
      case Out => [p[0]] + Expanded(p[1..], self, if p[0] == '{' then JustOpened else Out)
      case JustOpened =>
        if p[0] == '}' then self + "}" + Expanded(p[1..], self, Out)
        else [p[0]] + Expanded(p[1..], self, In)
      case In => [p[0]] + Expanded(p[1..], self, if p[0] == '}' then Out else In)
  }

  function RenderTokens(tokens: seq<Token>, self: string): string {
    if tokens == [] then ""
    else
      (match tokens[0]
       case Text(text) => text
       case Name(name) => "{" + NameOr(name, self) + "}") + RenderTokens(tokens[1..], self)
  }

  lemma {:induction false} RenderText(text: string, s: Scan, self: string)
    ensures RenderTokens(WithText(text, s).tokens, self) == text + RenderTokens(s.tokens, self)
  {
    if text != "" {
      assert ([Text(text)] + s.tokens)[1..] == s.tokens;
    }
  }

  lemma {:induction false} OutsideRenders(p: string, text: string, self: string)
    requires Outside(p, text).closed
    ensures RenderTokens(Outside(p, text).tokens, self) == text + Expanded(p, self, Out)
    decreases |p|
  {
    if p == "" {
      RenderText(text, Scan([], true), self);
    } else if p[0] == '{' {
      RenderText(text, Inside(p[1..], ""), self);
      InsideRenders(p[1..], "", self);
      assert "{" + "" + Expanded(p[1..], self, JustOpened) == Expanded(p, self, Out);
    } else {
      OutsideRenders(p[1..], text + [p[0]], self);
      assert text + [p[0]] + Expanded(p[1..], self, Out) == text + Expanded(p, self, Out);
    }
  }

  lemma {:induction false} InsideRenders(p: string, name: string, self: string)
    requires Inside(p, name).closed
    ensures RenderTokens(Inside(p, name).tokens, self)
            == "{" + name + Expanded(p, self, if name == "" then JustOpened else In)
    decreases |p|
  {
    if p[0] == '}' {
      OutsideRenders(p[1..], "", self);
      ClosingRenders(p, name, self);
    } else {
      InsideRenders(p[1..], name + [p[0]], self);
      var tail := Expanded(p[1..], self, In);
      assert "{" + (name + [p[0]]) + tail == "{" + name + ([p[0]] + tail);
    }
  }

  lemma {:induction false} ClosingRenders(p: string, name: string, self: string)
    requires p != "" && p[0] == '}'
    requires RenderTokens(Outside(p[1..], "").tokens, self) == "" + Expanded(p[1..], self, Out)
    ensures RenderTokens(Inside(p, name).tokens, self)
            == "{" + name + Expanded(p, self, if name == "" then JustOpened else In)
  {
    var next, tail := Outside(p[1..], ""), Expanded(p[1..], self, Out);
    assert ([Name(name)] + next.tokens)[1..] == next.tokens;
    assert "" + tail == tail;
    var full := NameOr(name, self);
    assert RenderTokens(Inside(p, name).tokens, self) == "{" + full + "}" + tail;
    Regroup("{", full, "}", tail);
    if name == "" {
      assert "{" + "" == "{";
    }
  }

  lemma {:induction false} Regroup(a: string, b: string, c: string, d: string)
    ensures a + b + c + d == a + (b + c + d)
    ensures a + b + c + d == a + b + (c + d)
  {
  }

  lemma {:induction false} ResolvedRenders(tokens: seq<Token>, closed: bool, self: string, fields: seq<string>)
    requires Resolved(tokens, closed, self, fields).Parsed?
    ensures InRange(Resolved(tokens, closed, self, fields).segments, |fields|)
    ensures Render(Resolved(tokens, closed, self, fields).segments, fields) == RenderTokens(tokens, self)
  {
    if tokens != [] {
      ResolvedRenders(tokens[1..], closed, self, fields);
      var r := Resolved(tokens, closed, self, fields);
      assert r.segments[1..] == Resolved(tokens[1..], closed, self, fields).segments;
    }
  }

  /** A pattern that parses is given back by its segments, with `{}` written out as the tagged field. */
  lemma {:induction false} ParsedRendersBack(pattern: string, self: string, fields: seq<string>)
    requires Meaning(pattern, self, fields).Parsed?
    ensures InRange(Meaning(pattern, self, fields).segments, |fields|)
    ensures Render(Meaning(pattern, self, fields).segments, fields) == Expanded(pattern, self, Out)
  {
    var s := Outside(pattern, "");
    ResolvedRenders(s.tokens, s.closed, self, fields);
    OutsideGood(pattern, "");
    ResolvedShape(s.tokens, s.closed, self, fields);
    OutsideRenders(pattern, "", self);
  }

  /** Field names a pattern can refer to, each by one name only. */
  predicate Nameable(fields: seq<string>) {
    && (forall i :: 0 <= i < |fields| ==> fields[i] != "" && '}' !in fields[i])
    && (forall i, j :: 0 <= i < j < |fields| ==> fields[i] != fields[j])
  }

  lemma {:induction false} LiteralReads(text: string, tail: string, self: string, fields: seq<string>)
    requires text != "" && '{' !in text && (tail == "" || tail[0] == '{')
    ensures Meaning(text + tail, self, fields) == After([Literal(text)], Meaning(tail, self, fields))
  {
    var p := text + tail;
    assert p[..|text|] == text && p[|text|..] == tail;
    OutsideSkips(p, "", |text|);
    assert "" + text == text;
    var s := if tail == "" then Scan([], true) else Inside(tail[1..], "");
    assert Outside(tail, text) == WithText(text, s) && Outside(tail, "") == s;
    ResolvedText(text, s, self, fields);
  }

  lemma {:induction false} PlaceholderReads(i: nat, tail: string, self: string, fields: seq<string>)
    requires Nameable(fields) && i < |fields|
    ensures Meaning("{" + fields[i] + "}" + tail, self, fields) == After([Field(i)], Meaning(tail, self, fields))
  {
    var name := fields[i];
    var p := "{" + name + "}" + tail;
    var q := p[1..];
    assert q[..|name|] == name && q[|name|..] == "}" + tail;
    InsideSkips(q, "", |name|);
    assert "" + name == name;
    assert ("}" + tail)[1..] == tail;
    var next := Outside(tail, "");
    assert Outside(p, "") == Scan([Name(name)] + next.tokens, next.closed);
    assert ([Name(name)] + next.tokens)[1..] == next.tokens;
    assert FieldIndex(fields, name) == i;
  }

  /** Parsing inverts rendering on well-formed formats: every such format is what its own pattern
      means. */
  lemma {:induction false} RenderParsesBack(segs: seq<Segment>, self: string, fields: seq<string>)
    requires WellFormed(segs, |fields|) && InRange(segs, |fields|) && Nameable(fields)
    ensures Meaning(Render(segs, fields), self, fields) == Parsed(segs)
  {
    if segs != [] {
      var tail := Render(segs[1..], fields);
      RenderParsesBack(segs[1..], self, fields);
      if segs[0].Literal? {
        assert tail == "" || tail[0] == '{';
        LiteralReads(segs[0].text, tail, self, fields);
      } else {
        PlaceholderReads(segs[0].index, tail, self, fields);
      }
      assert [segs[0]] + segs[1..] == segs;
    }
  }

  /** For every pattern that parses, an item's key decodes back to its fields exactly when they are
      decodable for the parsed format. */
  lemma {:induction false} ParsedKeysRoundTrip(pattern: string, self: string, fields: seq<string>, v: seq<string>)
    requires Meaning(pattern, self, fields).Parsed? && |v| == |fields|
    ensures var segs := Meaning(pattern, self, fields).segments;
            InRange(segs, |v|) && (RoundTrips(segs, v) <==> Decodable(segs, v))
  {
    ParsedWellFormed(pattern, self, fields);
    RoundTripExact(Meaning(pattern, self, fields).segments, v);
  }
}
