/**
 Composite DynamoDB keys (aws/dynamo/tag.go): printing a key such as "T:{TenantID}:License:{ID}" from a
 struct's fields, taking a key apart again, and recomputing the attributes derived from other fields.

 A struct is the sequence of its fields' text forms. A field whose value cannot be written as text, or
 whose type rejects a text, makes the operations fail where the code does.
 */
module KeyFormat {

  import opened Strings

  datatype Segment = Literal(text: string) | Field(index: nat)

  // ----- Encoding -----

  predicate InRange(segs: seq<Segment>, n: nat) {
    forall s :: s in segs && s.Field? ==> s.index < n
  }

  function Encoded(segs: seq<Segment>, v: seq<string>): string
    requires InRange(segs, |v|)
  {
    if segs == [] then ""
    else (if segs[0].Literal? then segs[0].text else v[segs[0].index]) + Encoded(segs[1..], v)
  }

  lemma {:induction false} EncodedSplits(a: seq<Segment>, b: seq<Segment>, v: seq<string>)
    requires InRange(a + b, |v|)
    ensures InRange(a, |v|) && InRange(b, |v|)
    ensures Encoded(a + b, v) == Encoded(a, v) + Encoded(b, v)
  {
    assert forall s :: s in a || s in b ==> s in a + b;
    if a == [] {
      assert a + b == b;
    } else {
      assert (a + b)[1..] == a[1..] + b;
      EncodedSplits(a[1..], b, v);
    }
  }

  /** No field of the format is among those whose value cannot be written as text. */
  predicate Marshals(segs: seq<Segment>, bad: set<nat>) {
    forall s :: s in segs && s.Field? ==> s.index !in bad
  }

  method Encode(segs: seq<Segment>, v: array<string>, bad: set<nat>) returns (key: string, ok: bool)
    requires InRange(segs, v.Length)
    ensures ok <==> forall s :: s in segs && s.Field? ==> s.index !in bad
    ensures key == if ok then Encoded(segs, v[..]) else ""
  {
    key := "";
    var i := 0;
    while i < |segs|
      invariant 0 <= i <= |segs|
      invariant Marshals(segs[..i], bad)
      invariant InRange(segs[..i], v.Length) && key == Encoded(segs[..i], v[..])
    {
      assert segs[i] in segs;
      if segs[i].Literal? {
        key := key + segs[i].text;
      } else if segs[i].index in bad {
        return "", false;
      } else {
        key := key + v[segs[i].index];
      }
      EncodedSplits(segs[..i], [segs[i]], v[..]);
      assert [segs[i]][1..] == [];
      assert segs[..i + 1] == segs[..i] + [segs[i]];
      i := i + 1;
    }
    assert segs[..i] == segs;
    ok := true;
  }

  // ----- Decoding -----

  /** The text of the first literal, or "" if there is none. */
  function NextLiteral(segs: seq<Segment>): string {
    if segs == [] then "" else if segs[0].Literal? then segs[0].text else NextLiteral(segs[1..])
  }

  /** The texts cut out of a key, one for each field segment reached, and whether the end was reached. */
  datatype Extraction = Extraction(values: seq<string>, ok: bool)

  function Extract(segs: seq<Segment>, raw: string): Extraction {
    if segs == [] then Extraction([], true)
    else if segs[0].Literal? then
      if segs[0].text <= raw then Extract(segs[1..], raw[|segs[0].text|..]) else Extraction([], false)
    else
      var lit := NextLiteral(segs[1..]);
      if lit == "" then
        var e := Extract(segs[1..], "");
        Extraction([raw] + e.values, e.ok)
      else
        var i := Index(raw, lit);
        if i < 0 then Extraction([], false)
        else
          var e := Extract(segs[1..], raw[i..]);
          Extraction([raw[..i]] + e.values, e.ok)
  }

  /** The field indices of a format, in order. */
  function Fields(segs: seq<Segment>): seq<nat> {
    if segs == [] then []
    else (if segs[0].Field? then [segs[0].index] else []) + Fields(segs[1..])
  }

  predicate Below(idx: seq<nat>, n: nat) {
    forall j :: 0 <= j < |idx| ==> idx[j] < n
  }

  /** Set the fields `idx[0]`, `idx[1]`, ... to the given texts, one after the other. */
  function Assigned(v: seq<string>, idx: seq<nat>, values: seq<string>): (r: seq<string>)
    requires |values| <= |idx| && Below(idx, |v|)
    ensures |r| == |v|
    decreases |values|
  {
    if values == [] then v else Assigned(v[idx[0] := values[0]], idx[1..], values[1..])
  }

  lemma {:induction false} ExtractBounded(segs: seq<Segment>, raw: string)
    ensures |Extract(segs, raw).values| <= |Fields(segs)|
    ensures Extract(segs, raw).ok ==> |Extract(segs, raw).values| == |Fields(segs)|
  {
    if segs != [] {
      if segs[0].Literal? {
        if segs[0].text <= raw {
          ExtractBounded(segs[1..], raw[|segs[0].text|..]);
        }
      } else {
        ExtractBounded(segs[1..], "");
        var lit := NextLiteral(segs[1..]);
        if lit != "" && Index(raw, lit) >= 0 {
          ExtractBounded(segs[1..], raw[Index(raw, lit)..]);
        }
      }
    }
  }

  lemma {:induction false} FieldsInRange(segs: seq<Segment>, n: nat)
    requires InRange(segs, n)
    ensures Below(Fields(segs), n)
  {
    if segs != [] {
      FieldsInRange(segs[1..], n);
    }
  }

  /** The texts that are set: those before the first one its field's type rejects. */
  function Accepted(idx: seq<nat>, values: seq<string>, rejects: (nat, string) -> bool): (r: seq<string>)
    requires |values| <= |idx|
    ensures r <= values
    decreases |values|
  {
    if values == [] || rejects(idx[0], values[0]) then []
    else [values[0]] + Accepted(idx[1..], values[1..], rejects)
  }

  /** The key has the format's shape and every text cut out of it suits its field. */
  predicate Reads(segs: seq<Segment>, raw: string, rejects: (nat, string) -> bool) {
    ExtractBounded(segs, raw);
    var e := Extract(segs, raw);
    e.ok && Accepted(Fields(segs), e.values, rejects) == e.values
  }

  /** What is left to do after the first text has been accepted or not. */
  lemma {:induction false} AcceptedFirst(v: seq<string>, idx: seq<nat>, values: seq<string>, rejects: (nat, string) -> bool)
    requires |values| <= |idx| && Below(idx, |v|) && values != []
    ensures var rest := Accepted(idx[1..], values[1..], rejects);
            if rejects(idx[0], values[0])
            then Assigned(v, idx, Accepted(idx, values, rejects)) == v && Accepted(idx, values, rejects) != values
            else Assigned(v, idx, Accepted(idx, values, rejects)) == Assigned(v[idx[0] := values[0]], idx[1..], rest)
                 && (Accepted(idx, values, rejects) == values <==> rest == values[1..])
  {
    var all, rest := Accepted(idx, values, rejects), Accepted(idx[1..], values[1..], rejects);
    if !rejects(idx[0], values[0]) {
      assert all == [values[0]] + rest && all[1..] == rest;
      assert values == [values[0]] + values[1..];
    }
  }

  /** The fields once the key is read: those reached before an error have their new texts. */
  function Filled(segs: seq<Segment>, raw: string, v: seq<string>, rejects: (nat, string) -> bool): seq<string>
    requires InRange(segs, |v|)
  {
    ExtractBounded(segs, raw);
    FieldsInRange(segs, |v|);
    Assigned(v, Fields(segs), Accepted(Fields(segs), Extract(segs, raw).values, rejects))
  }

  /** The leading literal is there: it is skipped. */
  lemma {:induction false} LiteralStep(segs: seq<Segment>, raw: string, v: seq<string>, rejects: (nat, string) -> bool)
    requires InRange(segs, |v|) && segs != [] && segs[0].Literal? && segs[0].text <= raw
    ensures Reads(segs, raw, rejects) == Reads(segs[1..], raw[|segs[0].text|..], rejects)
    ensures Filled(segs, raw, v, rejects) == Filled(segs[1..], raw[|segs[0].text|..], v, rejects)
  {
    assert Fields(segs) == Fields(segs[1..]);
  }

  /** Nothing can be cut: the key is refused as it stands. */
  lemma {:induction false} StuckStep(segs: seq<Segment>, raw: string, v: seq<string>, rejects: (nat, string) -> bool)
    requires InRange(segs, |v|) && segs != [] && Extract(segs, raw) == Extraction([], false)
    ensures !Reads(segs, raw, rejects) && Filled(segs, raw, v, rejects) == v
  {
  }

  /** The leading field gets `value` and `rest` is left of the key. */
  lemma {:induction false} FieldStep(segs: seq<Segment>, raw: string, v: seq<string>, rejects: (nat, string) -> bool,
                                     value: string, rest: string)
    requires InRange(segs, |v|) && segs != [] && segs[0].Field?
    requires var e := Extract(segs[1..], rest); Extract(segs, raw) == Extraction([value] + e.values, e.ok)
    ensures if rejects(segs[0].index, value)
            then !Reads(segs, raw, rejects) && Filled(segs, raw, v, rejects) == v
            else Reads(segs, raw, rejects) == Reads(segs[1..], rest, rejects)
                 && Filled(segs, raw, v, rejects) == Filled(segs[1..], rest, v[segs[0].index := value], rejects)
  {
    var idx, values := Fields(segs), Extract(segs, raw).values;
    assert idx == [segs[0].index] + Fields(segs[1..]) && idx[1..] == Fields(segs[1..]);
    assert values[1..] == Extract(segs[1..], rest).values;
    ExtractBounded(segs, raw);
    FieldsInRange(segs, |v|);
    AcceptedFirst(v, idx, values, rejects);
  }

  // ----- What a key has to look like -----

  /** The literals of a format with the given texts in between, one for each field. */
  function Woven(segs: seq<Segment>, texts: seq<string>): string
    requires |texts| == |Fields(segs)|
  {
    if segs == [] then ""
    else if segs[0].Literal? then segs[0].text + Woven(segs[1..], texts)
    else texts[0] + Woven(segs[1..], texts[1..])
  }

  /** Text number `|Fields(segs[..j])|`, that of the field at `j`, ends where the next literal first occurs
      after it began, or at the end of the key if no literal follows. */
  ghost predicate EndsFirst(segs: seq<Segment>, raw: string, texts: seq<string>, j: nat)
    requires j < |segs|
  {
    var n := |Fields(segs[..j])|;
    n < |texts| &&
    var at, lit := |Woven(segs[..j], texts[..n])|, NextLiteral(segs[j + 1..]);
    at <= |raw| && if lit == "" then texts[n] == raw[at..] else Index(raw[at..], lit) == |texts[n]|
  }

  /** The key begins with the first `m` segments, the fields being `texts`, each as short as can be. */
  ghost predicate BeginsWith(segs: seq<Segment>, raw: string, texts: seq<string>, m: nat) {
    && m <= |segs| && |texts| == |Fields(segs[..m])|
    && Woven(segs[..m], texts) <= raw
    && forall j :: 0 <= j < m && segs[j].Field? ==> EndsFirst(segs, raw, texts, j)
  }

  lemma {:induction false} FieldsSplit(a: seq<Segment>, b: seq<Segment>)
    ensures Fields(a + b) == Fields(a) + Fields(b)
    decreases |a|
  {
    if a == [] {
      assert a + b == b && Fields(a) + Fields(b) == Fields(b);
    } else {
      var rest := a[1..];
      assert (a + b)[0] == a[0] && (a + b)[1..] == rest + b;
      FieldsSplit(rest, b);
      Reassociated(if a[0].Field? then [a[0].index] else [], Fields(rest), Fields(b));
    }
  }

  lemma {:induction false} Reassociated<T>(a: seq<T>, b: seq<T>, c: seq<T>)
    ensures a + (b + c) == (a + b) + c
  {
  }

  lemma {:induction false} FieldsSnoc(segs: seq<Segment>, m: nat)
    requires m < |segs|
    ensures segs[..m + 1] == segs[..m] + [segs[m]]
    ensures Fields(segs[..m + 1]) == Fields(segs[..m]) + if segs[m].Field? then [segs[m].index] else []
  {
    assert segs[..m + 1] == segs[..m] + [segs[m]];
    FieldsSplit(segs[..m], [segs[m]]);
    assert [segs[m]][1..] == [];
  }

  lemma {:induction false} FieldsBefore(segs: seq<Segment>, j: nat, m: nat)
    requires j < m <= |segs|
    ensures |Fields(segs[..j])| + (if segs[j].Field? then 1 else 0) <= |Fields(segs[..m])|
    decreases m
  {
    FieldsSnoc(segs, m - 1);
    if j < m - 1 {
      FieldsBefore(segs, j, m - 1);
    }
  }

  lemma {:induction false} WovenSplits(a: seq<Segment>, b: seq<Segment>, s: seq<string>, t: seq<string>)
    requires |s| == |Fields(a)| && |t| == |Fields(b)|
    ensures |s + t| == |Fields(a + b)| && Woven(a + b, s + t) == Woven(a, s) + Woven(b, t)
    decreases |a|
  {
    FieldsSplit(a, b);
    if a == [] {
      assert a + b == b && s + t == t;
      assert Woven(a, s) + Woven(b, t) == Woven(b, t);
    } else {
      var rest := a[1..];
      assert (a + b)[0] == a[0] && (a + b)[1..] == rest + b;
      if a[0].Literal? {
        WovenSplits(rest, b, s, t);
        Reassociated(a[0].text, Woven(rest, s), Woven(b, t));
      } else {
        assert (s + t)[0] == s[0] && (s + t)[1..] == s[1..] + t;
        WovenSplits(rest, b, s[1..], t);
        Reassociated(s[0], Woven(rest, s[1..]), Woven(b, t));
      }
    }
  }

  lemma {:induction false} WovenLiteral(segs: seq<Segment>, m: nat, texts: seq<string>)
    requires m < |segs| && segs[m].Literal? && |texts| == |Fields(segs[..m])|
    ensures |texts| == |Fields(segs[..m + 1])|
    ensures Woven(segs[..m + 1], texts) == Woven(segs[..m], texts) + segs[m].text
  {
    FieldsSnoc(segs, m);
    assert [segs[m]][1..] == [] && texts + [] == texts;
    WovenSplits(segs[..m], [segs[m]], texts, []);
  }

  lemma {:induction false} WovenField(segs: seq<Segment>, m: nat, texts: seq<string>, text: string)
    requires m < |segs| && segs[m].Field? && |texts| == |Fields(segs[..m])|
    ensures |texts + [text]| == |Fields(segs[..m + 1])|
    ensures Woven(segs[..m + 1], texts + [text]) == Woven(segs[..m], texts) + text
  {
    FieldsSnoc(segs, m);
    assert [segs[m]][1..] == [] && [text][1..] == [];
    WovenSplits(segs[..m], [segs[m]], texts, [text]);
  }

  /** What is left of the key after the first `m` segments. */
  ghost function Rest(segs: seq<Segment>, raw: string, texts: seq<string>, m: nat): string
    requires BeginsWith(segs, raw, texts, m)
  {
    raw[|Woven(segs[..m], texts)|..]
  }

  lemma {:induction false} PrefixThen(a: string, b: string, raw: string)
    requires a <= raw
    ensures a + b <= raw <==> b <= raw[|a|..]
    ensures b <= raw[|a|..] ==> raw[|a|..][|b|..] == raw[|a + b|..]
  {
    assert raw == a + raw[|a|..];
    if a + b <= raw {
      assert raw[|a|..][..|b|] == raw[..|a + b|][|a|..] == b;
    }
    if b <= raw[|a|..] {
      assert raw[|a|..] == b + raw[|a|..][|b|..];
      assert raw == a + b + raw[|a|..][|b|..];
    }
  }

  /** The fields before a segment do not depend on the texts after them. */
  lemma {:induction false} EndsFirstLocal(segs: seq<Segment>, raw: string, texts: seq<string>, more: seq<string>, j: nat)
    requires j < |segs| && texts <= more && |Fields(segs[..j])| < |texts|
    ensures EndsFirst(segs, raw, texts, j) <==> EndsFirst(segs, raw, more, j)
  {
    var n := |Fields(segs[..j])|;
    assert more[..n] == texts[..n] && more[n] == texts[n];
  }

  /** A literal that comes next extends the beginning, and nothing else does. */
  lemma {:induction false} NextIsLiteral(segs: seq<Segment>, raw: string, texts: seq<string>, m: nat)
    requires BeginsWith(segs, raw, texts, m) && m < |segs| && segs[m].Literal?
    ensures BeginsWith(segs, raw, texts, m + 1) <==> segs[m].text <= Rest(segs, raw, texts, m)
    ensures BeginsWith(segs, raw, texts, m + 1) ==>
              Rest(segs, raw, texts, m + 1) == Rest(segs, raw, texts, m)[|segs[m].text|..]
  {
    WovenLiteral(segs, m, texts);
    PrefixThen(Woven(segs[..m], texts), segs[m].text, raw);
  }

  lemma {:induction false} NextIsField(segs: seq<Segment>, raw: string, texts: seq<string>, m: nat, text: string)
    requires BeginsWith(segs, raw, texts, m) && m < |segs| && segs[m].Field?
    ensures BeginsWith(segs, raw, texts + [text], m + 1) <==>
            var rest, lit := Rest(segs, raw, texts, m), NextLiteral(segs[m + 1..]);
            text <= rest && if lit == "" then text == rest else Index(rest, lit) == |text|
    ensures BeginsWith(segs, raw, texts + [text], m + 1) ==>
              Rest(segs, raw, texts + [text], m + 1) == Rest(segs, raw, texts, m)[|text|..]
  {
    var more := texts + [text];
    WovenField(segs, m, texts, text);
    PrefixThen(Woven(segs[..m], texts), text, raw);
    assert more[..|texts|] == texts;
    forall j | 0 <= j < m && segs[j].Field?
      ensures EndsFirst(segs, raw, more, j)
    {
      FieldsBefore(segs, j, m);
      EndsFirstLocal(segs, raw, texts, more, j);
    }
  }

  /** A key that begins with more segments begins with fewer. */
  lemma {:induction false} BeginsShorter(segs: seq<Segment>, raw: string, texts: seq<string>, m: nat)
    requires 0 < m && BeginsWith(segs, raw, texts, m)
    ensures |Fields(segs[..m - 1])| == |texts| - (if segs[m - 1].Field? then 1 else 0)
    ensures BeginsWith(segs, raw, texts[..|Fields(segs[..m - 1])|], m - 1)
  {
    var k := m - 1;
    FieldsSnoc(segs, k);
    var n := |Fields(segs[..k])|;
    var fewer := texts[..n];
    if segs[k].Literal? {
      assert fewer == texts;
      WovenLiteral(segs, k, texts);
      PrefixThen(Woven(segs[..k], texts), segs[k].text, raw);
    } else {
      assert texts == fewer + [texts[n]];
      WovenField(segs, k, fewer, texts[n]);
    }
    forall j | 0 <= j < k && segs[j].Field?
      ensures EndsFirst(segs, raw, fewer, j)
    {
      FieldsBefore(segs, j, k);
      EndsFirstLocal(segs, raw, fewer, texts, j);
    }
  }

  /** The last text is determined by what comes before it. */
  lemma {:induction false} LastOneWay(segs: seq<Segment>, raw: string, texts: seq<string>, k: nat, a: string, b: string)
    requires k < |segs| && segs[k].Field? && BeginsWith(segs, raw, texts, k)
    requires BeginsWith(segs, raw, texts + [a], k + 1) && BeginsWith(segs, raw, texts + [b], k + 1)
    ensures a == b
  {
    NextIsField(segs, raw, texts, k, a);
    NextIsField(segs, raw, texts, k, b);
    var rest := Rest(segs, raw, texts, k);
    assert a == rest[..|a|] && b == rest[..|b|];
  }

  lemma {:induction false} WholeAgain<T>(s: seq<T>, n: nat)
    requires |s| == n + 1
    ensures s == s[..n] + [s[n]]
  {
  }

  /** The texts are determined by the key. */
  lemma {:induction false} BeginsOneWay(segs: seq<Segment>, raw: string, s: seq<string>, t: seq<string>, m: nat)
    requires BeginsWith(segs, raw, s, m) && BeginsWith(segs, raw, t, m)
    ensures s == t
    decreases m
  {
    if m > 0 {
      var k := m - 1;
      BeginsShorter(segs, raw, s, m);
      BeginsShorter(segs, raw, t, m);
      var n := |Fields(segs[..k])|;
      BeginsOneWay(segs, raw, s[..n], t[..n], k);
      if segs[k].Field? {
        WholeAgain(s, n);
        WholeAgain(t, n);
        LastOneWay(segs, raw, s[..n], k, s[n], t[n]);
      } else {
        assert s[..n] == s && t[..n] == t;
      }
    }
  }

  ghost predicate NoneBegins(segs: seq<Segment>, raw: string, m: nat) {
    forall texts :: !BeginsWith(segs, raw, texts, m)
  }

  /** `e` is what is cut out of the key: the texts of the longest beginning it has. */
  ghost predicate CutsLongest(segs: seq<Segment>, raw: string, e: Extraction, m: nat) {
    && BeginsWith(segs, raw, e.values, m) && (e.ok <==> m == |segs|)
    && (m < |segs| ==> NoneBegins(segs, raw, m + 1))
  }

  /** `texts`, and then what is cut out of the rest. */
  function Resumed(segs: seq<Segment>, texts: seq<string>, i: nat, rest: string): Extraction
    requires i <= |segs|
  {
    var e := Extract(segs[i..], rest);
    Extraction(texts + e.values, e.ok)
  }

  lemma {:induction false} ResumedLiteral(segs: seq<Segment>, texts: seq<string>, i: nat, rest: string)
    requires i < |segs| && segs[i].Literal?
    ensures Resumed(segs, texts, i, rest)
            == if segs[i].text <= rest then Resumed(segs, texts, i + 1, rest[|segs[i].text|..]) else Extraction(texts, false)
  {
    assert segs[i..][1..] == segs[i + 1..] && texts + [] == texts;
  }

  /** Where the text of a field ends, or -1. */
  function TextEnd(lit: string, rest: string): (at: int)
    ensures -1 <= at <= |rest|
  {
    if lit == "" then |rest| else Index(rest, lit)
  }

  lemma {:induction false} ResumedField(segs: seq<Segment>, texts: seq<string>, i: nat, rest: string)
    requires i < |segs| && segs[i].Field?
    ensures var at := TextEnd(NextLiteral(segs[i + 1..]), rest);
            Resumed(segs, texts, i, rest)
            == if at >= 0 then Resumed(segs, texts + [rest[..at]], i + 1, rest[at..]) else Extraction(texts, false)
  {
    assert segs[i..][1..] == segs[i + 1..] && texts + [] == texts;
    var at := TextEnd(NextLiteral(segs[i + 1..]), rest);
    if at >= 0 {
      var e := Extract(segs[i + 1..], rest[at..]);
      assert at == |rest| ==> rest[..at] == rest && rest[at..] == "";
      assert texts + ([rest[..at]] + e.values) == texts + [rest[..at]] + e.values;
    }
  }

  /** Having cut out `texts` for the first `i` segments, the decoder goes on with the rest. */
  lemma {:induction false} ExtractFrom(segs: seq<Segment>, raw: string, texts: seq<string>, i: nat) returns (m: nat)
    requires BeginsWith(segs, raw, texts, i)
    ensures CutsLongest(segs, raw, Resumed(segs, texts, i, Rest(segs, raw, texts, i)), m)
    decreases |segs| - i
  {
    var rest := Rest(segs, raw, texts, i);
    m := i;
    if i == |segs| {
      assert texts + [] == texts;
    } else if segs[i].Literal? {
      ResumedLiteral(segs, texts, i, rest);
      NextIsLiteral(segs, raw, texts, i);
      if segs[i].text <= rest {
        m := ExtractFrom(segs, raw, texts, i + 1);
      } else {
        StuckAt(segs, raw, texts, i);
      }
    } else {
      ResumedField(segs, texts, i, rest);
      var at := TextEnd(NextLiteral(segs[i + 1..]), rest);
      if at >= 0 {
        NextIsField(segs, raw, texts, i, rest[..at]);
        m := ExtractFrom(segs, raw, texts + [rest[..at]], i + 1);
      } else {
        StuckAt(segs, raw, texts, i);
      }
    }
  }

  /** Where the decoder gives up, no choice of texts gets further. */
  lemma {:induction false} StuckAt(segs: seq<Segment>, raw: string, texts: seq<string>, i: nat)
    requires BeginsWith(segs, raw, texts, i) && i < |segs|
    requires segs[i].Literal? ==> !(segs[i].text <= Rest(segs, raw, texts, i))
    requires segs[i].Field? ==>
               NextLiteral(segs[i + 1..]) != "" && Index(Rest(segs, raw, texts, i), NextLiteral(segs[i + 1..])) < 0
    ensures NoneBegins(segs, raw, i + 1)
  {
    var m := i + 1;
    forall more
      ensures !BeginsWith(segs, raw, more, m)
    {
      if BeginsWith(segs, raw, more, m) {
        StuckWith(segs, raw, texts, i, more);
      }
    }
  }

  lemma {:induction false} StuckWith(segs: seq<Segment>, raw: string, texts: seq<string>, i: nat, more: seq<string>)
    requires BeginsWith(segs, raw, texts, i) && i < |segs| && BeginsWith(segs, raw, more, i + 1)
    ensures segs[i].Literal? ==> segs[i].text <= Rest(segs, raw, texts, i)
    ensures segs[i].Field? && NextLiteral(segs[i + 1..]) != "" ==>
              Index(Rest(segs, raw, texts, i), NextLiteral(segs[i + 1..])) >= 0
  {
    BeginsShorter(segs, raw, more, i + 1);
    var n := |Fields(segs[..i])|;
    BeginsOneWay(segs, raw, texts, more[..n], i);
    if segs[i].Literal? {
      assert more[..n] == more;
      NextIsLiteral(segs, raw, texts, i);
    } else {
      assert more == texts + [more[n]];
      NextIsField(segs, raw, texts, i, more[n]);
    }
  }

  /** For every key, of the format's shape or not: what is cut out of it are the texts of the longest beginning
      it has, each field as short as can be, and it is accepted exactly when that is the whole format. */
  lemma {:induction false} ExtractExact(segs: seq<Segment>, raw: string) returns (m: nat)
    ensures CutsLongest(segs, raw, Extract(segs, raw), m)
  {
    assert segs[..0] == [] && segs[0..] == segs;
    m := ExtractFrom(segs, raw, [], 0);
    var e := Extract(segs, raw);
    assert [] + e.values == e.values;
  }

  /** A key is taken apart exactly when it begins with the whole format; if a field follows the last literal,
      nothing of the key is left over. */
  lemma {:induction false} AcceptedKeys(segs: seq<Segment>, raw: string, texts: seq<string>)
    ensures Extract(segs, raw) == Extraction(texts, true) <==> BeginsWith(segs, raw, texts, |segs|)
    ensures BeginsWith(segs, raw, texts, |segs|) && (exists j :: 0 <= j < |segs| && OpenEnded(segs, j)) ==>
              |texts| == |Fields(segs)| && Woven(segs, texts) == raw
  {
    var e := Extract(segs, raw);
    var m := ExtractExact(segs, raw);
    assert segs[..|segs|] == segs;
    if BeginsWith(segs, raw, texts, |segs|) {
      if m < |segs| {
        BeginsPrefix(segs, raw, texts, |segs|, m + 1);
      }
      BeginsOneWay(segs, raw, texts, e.values, |segs|);
      if j :| 0 <= j < |segs| && OpenEnded(segs, j) {
        NothingLeft(segs, raw, texts, j);
      }
    }
  }

  /** A field with no literal after it. */
  predicate OpenEnded(segs: seq<Segment>, j: nat)
    requires j < |segs|
  {
    segs[j].Field? && NextLiteral(segs[j + 1..]) == ""
  }

  lemma {:induction false} BeginsPrefix(segs: seq<Segment>, raw: string, texts: seq<string>, m: nat, k: nat)
    requires BeginsWith(segs, raw, texts, m) && k <= m
    ensures |Fields(segs[..k])| <= |texts| && BeginsWith(segs, raw, texts[..|Fields(segs[..k])|], k)
    decreases m
  {
    if k == m {
      assert texts[..|texts|] == texts;
    } else {
      BeginsShorter(segs, raw, texts, m);
      var fewer := texts[..|Fields(segs[..m - 1])|];
      BeginsPrefix(segs, raw, fewer, m - 1, k);
      var n := |Fields(segs[..k])|;
      assert fewer[..n] == texts[..n];
    }
  }

  lemma {:induction false} NothingLeft(segs: seq<Segment>, raw: string, texts: seq<string>, j: nat)
    requires BeginsWith(segs, raw, texts, |segs|) && j < |segs| && OpenEnded(segs, j)
    ensures |texts| == |Fields(segs)| && Woven(segs, texts) == raw
  {
    var n, k := |Fields(segs[..j])|, |Fields(segs[..j + 1])|;
    FieldsSnoc(segs, j);
    BeginsPrefix(segs, raw, texts, |segs|, j + 1);
    assert EndsFirst(segs, raw, texts, j);
    assert texts[..k] == texts[..n] + [texts[n]];
    WovenField(segs, j, texts[..n], texts[n]);
    assert segs == segs[..j + 1] + segs[j + 1..] && texts == texts[..k] + texts[k..];
    FieldsSplit(segs[..j + 1], segs[j + 1..]);
    assert segs[..|segs|] == segs;
    WovenSplits(segs[..j + 1], segs[j + 1..], texts[..k], texts[k..]);
    var at := |Woven(segs[..j], texts[..n])|;
    assert Woven(segs[..j + 1], texts[..k]) == raw[..at] + raw[at..] == raw;
  }

  /** Every text suits the type of its field. */
  ghost predicate Suits(idx: seq<nat>, texts: seq<string>, rejects: (nat, string) -> bool) {
    |texts| == |idx| && forall i :: 0 <= i < |idx| ==> !rejects(idx[i], texts[i])
  }

  /** The texts set are those before the first one rejected. */
  lemma {:induction false} AcceptedExact(idx: seq<nat>, texts: seq<string>, rejects: (nat, string) -> bool)
    requires |texts| <= |idx|
    ensures var n := |Accepted(idx, texts, rejects)|;
            && (forall i :: 0 <= i < n ==> !rejects(idx[i], texts[i]))
            && (n < |texts| ==> rejects(idx[n], texts[n]))
    decreases |texts|
  {
    if texts != [] && !rejects(idx[0], texts[0]) {
      AcceptedExact(idx[1..], texts[1..], rejects);
      forall i | 0 <= i < |Accepted(idx, texts, rejects)|
        ensures !rejects(idx[i], texts[i])
      {
        assert i > 0 ==> idx[i] == idx[1..][i - 1] && texts[i] == texts[1..][i - 1];
      }
    }
  }

  lemma {:induction false} ReadsExact(segs: seq<Segment>, raw: string, rejects: (nat, string) -> bool)
    ensures |Extract(segs, raw).values| <= |Fields(segs)|
    ensures Reads(segs, raw, rejects) <==> exists texts :: BeginsWith(segs, raw, texts, |segs|) && Suits(Fields(segs), texts, rejects)
    ensures Reads(segs, raw, rejects) ==>
              forall texts :: BeginsWith(segs, raw, texts, |segs|) ==>
                                texts == Accepted(Fields(segs), Extract(segs, raw).values, rejects)
  {
    var e := Extract(segs, raw);
    ExtractBounded(segs, raw);
    AcceptedExact(Fields(segs), e.values, rejects);
    AcceptedKeys(segs, raw, e.values);
    forall texts | BeginsWith(segs, raw, texts, |segs|)
      ensures e == Extraction(texts, true)
    {
      AcceptedKeys(segs, raw, texts);
    }
    if Reads(segs, raw, rejects) {
      assert BeginsWith(segs, raw, e.values, |segs|) && Suits(Fields(segs), e.values, rejects);
    }
  }

  /** Fields are set one at a time as the key is consumed: on an error those already reached keep
      their new texts. */
  method Decode(segs: seq<Segment>, raw: string, v: array<string>, rejects: (nat, string) -> bool) returns (ok: bool)
    requires InRange(segs, v.Length)
    modifies v
    ensures ok == Reads(segs, raw, rejects)
    ensures |Extract(segs, raw).values| <= |Fields(segs)| && Below(Fields(segs), v.Length)
    ensures v[..] == Assigned(old(v[..]), Fields(segs), Accepted(Fields(segs), Extract(segs, raw).values, rejects))
    ensures ok <==> exists texts :: BeginsWith(segs, raw, texts, |segs|) && Suits(Fields(segs), texts, rejects)
    ensures ok ==> forall texts :: BeginsWith(segs, raw, texts, |segs|) ==>
                                     |texts| == |Fields(segs)| && v[..] == Assigned(old(v[..]), Fields(segs), texts)
  {
    ReadsExact(segs, raw, rejects);
    assert segs[..|segs|] == segs;
    ExtractBounded(segs, raw);
    FieldsInRange(segs, v.Length);
    var remaining := raw;
    var i := 0;
    ghost var was := old(v[..]);
    while i < |segs|
      invariant 0 <= i <= |segs|
      invariant Reads(segs, raw, rejects) == Reads(segs[i..], remaining, rejects)
      invariant Filled(segs[i..], remaining, v[..], rejects) == Filled(segs, raw, was, rejects)
    {
      assert segs[i..][1..] == segs[i + 1..];
      if segs[i].Literal? {
        if !(segs[i].text <= remaining) {
          StuckStep(segs[i..], remaining, v[..], rejects);
          return false;
        }
        LiteralStep(segs[i..], remaining, v[..], rejects);
        remaining := remaining[|segs[i].text|..];
      } else {
        var nextLit := NextLiteral(segs[i + 1..]);
        var value, rest := remaining, "";
        if nextLit != "" {
          var at := Index(remaining, nextLit);
          if at < 0 {
            StuckStep(segs[i..], remaining, v[..], rejects);
            return false;
          }
          value, rest := remaining[..at], remaining[at..];
        }
        FieldStep(segs[i..], remaining, v[..], rejects, value, rest);
        if rejects(segs[i].index, value) {
          return false;
        }
        ghost var before := v[..];
        v[segs[i].index] := value;
        assert v[..] == before[segs[i].index := value];
        remaining := rest;
      }
      i := i + 1;
    }
    return true;
  }

  // ----- The round trip -----

  /** The texts of the fields a format refers to, in order. */
  function ValuesOf(segs: seq<Segment>, v: seq<string>): seq<string>
    requires InRange(segs, |v|)
  {
    if segs == [] then []
    else (if segs[0].Field? then [v[segs[0].index]] else []) + ValuesOf(segs[1..], v)
  }

  predicate NonEmptyLiterals(segs: seq<Segment>) {
    forall s :: s in segs && s.Literal? ==> s.text != ""
  }

  /** What a caller can check of the fields before writing a key: the literal after a field first
      occurs, in the field's text followed by that literal, right at the end of the text; and a field
      placed directly after another one is empty. */
  predicate Decodable(segs: seq<Segment>, v: seq<string>)
    requires InRange(segs, |v|)
  {
    segs != [] ==>
      && Decodable(segs[1..], v)
      && (segs[0].Field? ==>
            && StopsAt(v[segs[0].index], NextLiteral(segs[1..]))
            && FollowerEmpty(segs[1..], v))
  }

  predicate StopsAt(value: string, lit: string) {
    lit != "" ==> Index(value + lit, lit) == |value|
  }

  predicate FollowerEmpty(segs: seq<Segment>, v: seq<string>)
    requires InRange(segs, |v|)
  {
    segs != [] && segs[0].Field? ==> v[segs[0].index] == ""
  }

  ghost predicate RoundTrips(segs: seq<Segment>, v: seq<string>)
    requires InRange(segs, |v|)
  {
    Extract(segs, Encoded(segs, v)) == Extraction(ValuesOf(segs, v), true)
  }

  /** With no literal left, the rest of the key is empty exactly when its fields are. */
  lemma {:induction false} NoLiteralLeft(segs: seq<Segment>, v: seq<string>)
    requires InRange(segs, |v|) && NonEmptyLiterals(segs) && NextLiteral(segs) == ""
    ensures Encoded(segs, v) == "" <==> FollowerEmpty(segs, v) && Decodable(segs, v)
  {
    if segs != [] {
      assert segs[0] in segs;
      NoLiteralLeft(segs[1..], v);
      assert NextLiteral(segs[1..]) == "";
      assert Encoded(segs, v) == v[segs[0].index] + Encoded(segs[1..], v);
    }
  }

  /** If the fields before the next literal are empty, the rest of the key begins with that literal. */
  lemma {:induction false} LiteralLeads(segs: seq<Segment>, v: seq<string>)
    requires InRange(segs, |v|) && NextLiteral(segs) != ""
    requires FollowerEmpty(segs, v) && Decodable(segs, v)
    ensures NextLiteral(segs) <= Encoded(segs, v)
  {
    if segs[0].Field? {
      LiteralLeads(segs[1..], v);
      assert Encoded(segs, v) == Encoded(segs[1..], v);
    }
  }

  /** A rest of the key that begins with its next literal and round-trips has an empty first field. */
  lemma {:induction false} LeadingLiteralEmptiesField(segs: seq<Segment>, v: seq<string>)
    requires InRange(segs, |v|) && NextLiteral(segs) != "" && NextLiteral(segs) <= Encoded(segs, v)
    requires RoundTrips(segs, v)
    ensures FollowerEmpty(segs, v)
  {
    if segs[0].Field? {
      FirstOccurrence(Encoded(segs, v), NextLiteral(segs), 0);
      assert ValuesOf(segs, v)[0] == v[segs[0].index];
    }
  }

  lemma {:induction false} LiteralOccurs(segs: seq<Segment>, v: seq<string>) returns (i: nat)
    requires InRange(segs, |v|) && NextLiteral(segs) != ""
    ensures At(Encoded(segs, v), NextLiteral(segs), i)
  {
    if segs[0].Field? {
      var j := LiteralOccurs(segs[1..], v);
      i := |v[segs[0].index]| + j;
      ShiftedAt(v[segs[0].index], Encoded(segs[1..], v), NextLiteral(segs), j);
    } else {
      i := 0;
    }
  }

  /** Cutting the first field out of an encoded key. */
  lemma {:induction false} FieldCut(segs: seq<Segment>, v: seq<string>)
    requires InRange(segs, |v|) && NonEmptyLiterals(segs) && segs != [] && segs[0].Field?
    requires NextLiteral(segs[1..]) != ""
    ensures RoundTrips(segs, v) <==>
              Index(Encoded(segs, v), NextLiteral(segs[1..])) == |v[segs[0].index]| && RoundTrips(segs[1..], v)
  {
    var value, rest, lit := v[segs[0].index], Encoded(segs[1..], v), NextLiteral(segs[1..]);
    var raw := Encoded(segs, v);
    assert raw == value + rest;
    var o := LiteralOccurs(segs[1..], v);
    ShiftedAt(value, rest, lit, o);
    var i := Index(raw, lit);
    assert i >= 0;
    var e := Extract(segs[1..], raw[i..]);
    assert Extract(segs, raw) == Extraction([raw[..i]] + e.values, e.ok);
    assert ValuesOf(segs, v) == [value] + ValuesOf(segs[1..], v);
    if i == |value| {
      assert raw[i..] == rest && raw[..i] == value;
      assert Extract(segs, raw).values[1..] == e.values;
      assert ValuesOf(segs, v)[1..] == ValuesOf(segs[1..], v);
    } else {
      assert |raw[..i]| != |value|;
      assert Extract(segs, raw).values[0] == raw[..i];
      assert ValuesOf(segs, v)[0] == value;
    }
  }

  /** With no literal left, the field takes the whole rest. */
  lemma {:induction false} LastFieldCut(segs: seq<Segment>, v: seq<string>)
    requires InRange(segs, |v|) && NonEmptyLiterals(segs) && segs != [] && segs[0].Field?
    requires NextLiteral(segs[1..]) == ""
    ensures RoundTrips(segs, v) <==> Encoded(segs[1..], v) == "" && RoundTrips(segs[1..], v)
  {
    var value, rest := v[segs[0].index], Encoded(segs[1..], v);
    var raw := Encoded(segs, v);
    assert raw == value + rest;
    var e := Extract(segs[1..], "");
    assert Extract(segs, raw) == Extraction([raw] + e.values, e.ok);
    assert ValuesOf(segs, v) == [value] + ValuesOf(segs[1..], v);
    if rest == "" {
      assert raw == value;
      assert Extract(segs, raw).values[1..] == e.values;
      assert ValuesOf(segs, v)[1..] == ValuesOf(segs[1..], v);
    } else {
      assert |raw| != |value|;
      assert Extract(segs, raw).values[0] == raw;
      assert ValuesOf(segs, v)[0] == value;
    }
  }

  /** Decoding an encoded key cuts out exactly the fields' texts if and only if they are decodable:
      for every format, adjacent placeholders and repeated fields included. */
  lemma {:induction false} RoundTripExact(segs: seq<Segment>, v: seq<string>)
    requires InRange(segs, |v|) && NonEmptyLiterals(segs)
    ensures RoundTrips(segs, v) <==> Decodable(segs, v)
  {
    if segs != [] {
      RoundTripExact(segs[1..], v);
      var rest := Encoded(segs[1..], v);
      if segs[0].Literal? {
        assert Encoded(segs, v)[|segs[0].text|..] == rest;
        assert ValuesOf(segs, v) == ValuesOf(segs[1..], v);
      } else if NextLiteral(segs[1..]) == "" {
        LastFieldCut(segs, v);
        NoLiteralLeft(segs[1..], v);
      } else {
        FieldCut(segs, v);
        FieldRoundTrip(segs, v);
      }
    }
  }

  /** A decodable field is cut where it ends. */
  lemma {:induction false} DecodableCut(segs: seq<Segment>, v: seq<string>)
    requires InRange(segs, |v|) && segs != [] && segs[0].Field? && NextLiteral(segs[1..]) != ""
    requires Decodable(segs, v)
    ensures Index(Encoded(segs, v), NextLiteral(segs[1..])) == |v[segs[0].index]|
  {
    LiteralLeads(segs[1..], v);
    FirstOccurrenceIsLocal(v[segs[0].index], NextLiteral(segs[1..]), Encoded(segs[1..], v));
  }

  lemma {:induction false} FoundAfter(value: string, lit: string, rest: string)
    requires Index(value + rest, lit) == |value|
    ensures lit <= rest
  {
    assert (value + rest)[|value|..] == rest;
    assert (value + rest)[|value|..|value| + |lit|] == rest[..|lit|];
  }

  /** A field cut where it ends, before a rest that round-trips, is decodable. */
  lemma {:induction false} CutDecodable(segs: seq<Segment>, v: seq<string>)
    requires InRange(segs, |v|) && segs != [] && segs[0].Field? && NextLiteral(segs[1..]) != ""
    requires Index(Encoded(segs, v), NextLiteral(segs[1..])) == |v[segs[0].index]|
    requires RoundTrips(segs[1..], v) && Decodable(segs[1..], v)
    ensures Decodable(segs, v)
  {
    var value, rest, lit := v[segs[0].index], Encoded(segs[1..], v), NextLiteral(segs[1..]);
    FoundAfter(value, lit, rest);
    FirstOccurrenceIsLocal(value, lit, rest);
    LeadingLiteralEmptiesField(segs[1..], v);
  }

  lemma {:induction false} FieldRoundTrip(segs: seq<Segment>, v: seq<string>)
    requires InRange(segs, |v|) && segs != [] && segs[0].Field? && NextLiteral(segs[1..]) != ""
    requires RoundTrips(segs[1..], v) <==> Decodable(segs[1..], v)
    ensures Index(Encoded(segs, v), NextLiteral(segs[1..])) == |v[segs[0].index]| && RoundTrips(segs[1..], v)
            <==> Decodable(segs, v)
  {
    if Decodable(segs, v) {
      DecodableCut(segs, v);
    } else if Decodable(segs[1..], v) && Index(Encoded(segs, v), NextLiteral(segs[1..])) == |v[segs[0].index]| {
      CutDecodable(segs, v);
    }
  }

  /** Two items whose fields are decodable never share a key unless they agree on every field the
      format refers to. */
  lemma {:induction false} NoCollision(segs: seq<Segment>, v: seq<string>, w: seq<string>, i: nat)
    requires InRange(segs, |v|) && InRange(segs, |w|) && NonEmptyLiterals(segs)
    requires Decodable(segs, v) && Decodable(segs, w)
    requires Encoded(segs, v) == Encoded(segs, w) && Field(i) in segs
    ensures v[i] == w[i]
  {
    RoundTripExact(segs, v);
    RoundTripExact(segs, w);
    SameValues(segs, v, w, i);
  }

  lemma {:induction false} SameValues(segs: seq<Segment>, v: seq<string>, w: seq<string>, i: nat)
    requires InRange(segs, |v|) && InRange(segs, |w|)
    requires ValuesOf(segs, v) == ValuesOf(segs, w) && Field(i) in segs
    ensures v[i] == w[i]
  {
    var a, b := ValuesOf(segs, v), ValuesOf(segs, w);
    if segs[0].Field? {
      assert a[0] == v[segs[0].index] && b[0] == w[segs[0].index];
      assert a[1..] == ValuesOf(segs[1..], v) && b[1..] == ValuesOf(segs[1..], w);
    } else {
      assert a == ValuesOf(segs[1..], v) && b == ValuesOf(segs[1..], w);
    }
    if segs[0] != Field(i) {
      SameValues(segs[1..], v, w, i);
    }
  }

  // ----- The struct after decoding -----

  /** The struct `u` after decoding `raw` into it. */
  function Decoded(segs: seq<Segment>, raw: string, u: seq<string>): seq<string>
    requires InRange(segs, |u|)
  {
    ExtractBounded(segs, raw);
    FieldsInRange(segs, |u|);
    Assigned(u, Fields(segs), Extract(segs, raw).values)
  }

  lemma {:induction false} AssignedElsewhere(v: seq<string>, idx: seq<nat>, values: seq<string>, i: nat)
    requires |values| <= |idx| && Below(idx, |v|) && i < |v|
    requires i !in idx[..|values|]
    ensures Assigned(v, idx, values)[i] == v[i]
    decreases |values|
  {
    if values != [] {
      assert idx[..|values|][0] == idx[0];
      assert idx[1..][..|values[1..]|] == idx[..|values|][1..];
      AssignedElsewhere(v[idx[0] := values[0]], idx[1..], values[1..], i);
    }
  }

  lemma {:induction false} FieldsListed(segs: seq<Segment>, v: seq<string>)
    requires InRange(segs, |v|)
    ensures |ValuesOf(segs, v)| == |Fields(segs)|
    ensures forall j :: 0 <= j < |Fields(segs)| ==> Fields(segs)[j] < |v| && ValuesOf(segs, v)[j] == v[Fields(segs)[j]]
    ensures forall i :: i in Fields(segs) <==> Field(i) in segs
  {
    if segs != [] {
      FieldsListed(segs[1..], v);
      assert segs == [segs[0]] + segs[1..];
    }
  }

  /** Assigning every listed field its text in `v` makes the struct agree with `v` on those fields. */
  lemma {:induction false} AssignedAgrees(u: seq<string>, idx: seq<nat>, values: seq<string>, v: seq<string>)
    requires |values| == |idx| && |u| == |v| && Below(idx, |u|)
    requires forall j :: 0 <= j < |idx| ==> values[j] == v[idx[j]]
    ensures forall j :: 0 <= j < |idx| ==> Assigned(u, idx, values)[idx[j]] == v[idx[j]]
    decreases |idx|
  {
    if idx != [] {
      var u' := u[idx[0] := values[0]];
      AssignedAgrees(u', idx[1..], values[1..], v);
      forall j | 0 <= j < |idx|
        ensures Assigned(u, idx, values)[idx[j]] == v[idx[j]]
      {
        if idx[j] in idx[1..] {
          var k :| 0 <= k < |idx[1..]| && idx[1..][k] == idx[j];
        } else {
          assert j == 0;
          assert idx[1..][..|values[1..]|] == idx[1..];
          AssignedElsewhere(u', idx[1..], values[1..], idx[0]);
        }
      }
    }
  }

  /** A field keeps the last text assigned to it. */
  lemma {:induction false} AssignedLast(u: seq<string>, idx: seq<nat>, values: seq<string>, j: nat)
    requires |values| == |idx| && Below(idx, |u|) && j < |idx| && idx[j] !in idx[j + 1..]
    ensures Assigned(u, idx, values)[idx[j]] == values[j]
    decreases |idx|
  {
    var u' := u[idx[0] := values[0]];
    if j == 0 {
      assert idx[1..][..|values[1..]|] == idx[1..];
      AssignedElsewhere(u', idx[1..], values[1..], idx[0]);
    } else {
      assert idx[1..][j - 1] == idx[j] && idx[1..][j..] == idx[j + 1..];
      AssignedLast(u', idx[1..], values[1..], j - 1);
    }
  }

  lemma {:induction false} LastOccurrence(idx: seq<nat>, j: nat) returns (k: nat)
    requires j < |idx|
    ensures j <= k < |idx| && idx[k] == idx[j] && idx[k] !in idx[k + 1..]
    decreases |idx| - j
  {
    if idx[j] in idx[j + 1..] {
      var m :| 0 <= m < |idx[j + 1..]| && idx[j + 1..][m] == idx[j];
      k := LastOccurrence(idx, j + 1 + m);
    } else {
      k := j;
    }
  }

  ghost predicate Restores(segs: seq<Segment>, v: seq<string>, u: seq<string>)
    requires InRange(segs, |v|) && |u| == |v|
  {
    && Extract(segs, Encoded(segs, v)).ok
    && forall i: nat :: i < |v| && Field(i) in segs ==> Decoded(segs, Encoded(segs, v), u)[i] == v[i]
  }

  /** Decoding an item's own key into any struct restores every field the format refers to and
      touches no other; decodable fields suffice. */
  lemma {:induction false} DecodeRestores(segs: seq<Segment>, v: seq<string>, u: seq<string>)
    requires InRange(segs, |v|) && NonEmptyLiterals(segs) && |u| == |v|
    requires Decodable(segs, v)
    ensures Restores(segs, v, u)
    ensures forall i :: 0 <= i < |u| && Field(i) !in segs ==> Decoded(segs, Encoded(segs, v), u)[i] == u[i]
  {
    RoundTripExact(segs, v);
    FieldsListed(segs, v);
    FieldsInRange(segs, |v|);
    var values := ValuesOf(segs, v);
    AssignedAgrees(u, Fields(segs), values, v);
    forall i | 0 <= i < |u| && Field(i) !in segs
      ensures Decoded(segs, Encoded(segs, v), u)[i] == u[i]
    {
      assert Fields(segs)[..|values|] == Fields(segs);
      AssignedElsewhere(u, Fields(segs), values, i);
    }
  }

  /** The last text cut for each field is the field's own. */
  ghost predicate LastCutsRight(segs: seq<Segment>, v: seq<string>)
    requires InRange(segs, |v|)
  {
    var e, idx := Extract(segs, Encoded(segs, v)), Fields(segs);
    && e.ok && |e.values| == |idx| && Below(idx, |v|)
    && forall j :: 0 <= j < |idx| && idx[j] !in idx[j + 1..] ==> e.values[j] == v[idx[j]]
  }

  /** For every format, with repeated fields or not: the struct is restored if and only if the last text
      cut for each field is right, whatever the earlier ones were. */
  lemma {:induction false} RestoresExactly(segs: seq<Segment>, v: seq<string>, u: seq<string>)
    requires InRange(segs, |v|) && |u| == |v|
    ensures Restores(segs, v, u) <==> LastCutsRight(segs, v)
  {
    var e, idx := Extract(segs, Encoded(segs, v)), Fields(segs);
    ExtractBounded(segs, Encoded(segs, v));
    FieldsInRange(segs, |v|);
    FieldsListed(segs, v);
    if e.ok {
      forall j | 0 <= j < |idx| && idx[j] !in idx[j + 1..]
        ensures Assigned(u, idx, e.values)[idx[j]] == e.values[j] && Field(idx[j]) in segs
      {
        AssignedLast(u, idx, e.values, j);
        assert idx[j] in idx;
      }
    }
    if LastCutsRight(segs, v) {
      forall i: nat | i < |v| && Field(i) in segs
        ensures Decoded(segs, Encoded(segs, v), u)[i] == v[i]
      {
        var j :| 0 <= j < |idx| && idx[j] == i;
        var k := LastOccurrence(idx, j);
      }
    }
  }

  /** For a format that names no field twice, decodable fields are also necessary. */
  lemma {:induction false} DecodeRestoresExact(segs: seq<Segment>, v: seq<string>, u: seq<string>)
    requires InRange(segs, |v|) && NonEmptyLiterals(segs) && |u| == |v|
    requires var idx := Fields(segs); forall j, k :: 0 <= j < k < |idx| ==> idx[j] != idx[k]
    ensures Restores(segs, v, u) <==> Decodable(segs, v)
  {
    if Decodable(segs, v) {
      DecodeRestores(segs, v, u);
    }
    if Restores(segs, v, u) {
      RestoresExactly(segs, v, u);
      FieldsListed(segs, v);
      var idx, values := Fields(segs), Extract(segs, Encoded(segs, v)).values;
      forall j | 0 <= j < |idx|
        ensures values[j] == v[idx[j]]
      {
        var tail := idx[j + 1..];
        assert forall m :: 0 <= m < |tail| ==> tail[m] != idx[j];
      }
      assert values == ValuesOf(segs, v);
      RoundTripExact(segs, v);
    }
  }

  /** An item's own texts suit their fields, so no type stands in the way of reading its key back. */
  lemma {:induction false} OwnKeyReads(segs: seq<Segment>, v: seq<string>, rejects: (nat, string) -> bool)
    requires InRange(segs, |v|) && NonEmptyLiterals(segs) && Decodable(segs, v)
    requires forall i: nat :: i < |v| ==> !rejects(i, v[i])
    ensures Reads(segs, Encoded(segs, v), rejects)
  {
    RoundTripExact(segs, v);
    FieldsListed(segs, v);
    AllAccepted(Fields(segs), ValuesOf(segs, v), rejects);
  }

  lemma {:induction false} AllAccepted(idx: seq<nat>, values: seq<string>, rejects: (nat, string) -> bool)
    requires |values| <= |idx| && forall j :: 0 <= j < |values| ==> !rejects(idx[j], values[j])
    ensures Accepted(idx, values, rejects) == values
    decreases |values|
  {
    if values != [] {
      assert forall j :: 0 <= j < |values[1..]| ==> !rejects(idx[1..][j], values[1..][j]) by {
        forall j | 0 <= j < |values[1..]|
          ensures !rejects(idx[1..][j], values[1..][j])
        {
          assert !rejects(idx[j + 1], values[j + 1]);
        }
      }
      AllAccepted(idx[1..], values[1..], rejects);
    }
  }

  lemma {:induction false} CharAt(s: string, c: char, i: nat)
    requires i < |s|
    ensures At(s, [c], i) <==> s[i] == c
  {
    assert s[i..i + 1] == [s[i]];
  }

  /** The format "{A}:{A}/{A}". */
  function Repeated(): seq<Segment> {
    [Field(0), Literal(":"), Field(0), Literal("/"), Field(0)]
  }

  lemma {:induction false} RepeatedKey()
    ensures Encoded(Repeated(), ["x:y"]) == "x:y:x:y/x:y"
  {
    var segs, v := Repeated(), ["x:y"];
    assert Encoded(segs[5..], v) == "";
    assert segs[4..][1..] == segs[5..] && Encoded(segs[4..], v) == "x:y";
    assert segs[3..][1..] == segs[4..] && Encoded(segs[3..], v) == "/x:y";
    assert segs[2..][1..] == segs[3..] && Encoded(segs[2..], v) == "x:y/x:y";
    assert segs[1..][1..] == segs[2..] && Encoded(segs[1..], v) == ":x:y/x:y";
  }

  lemma {:induction false} RepeatedTail()
    ensures Extract(Repeated()[2..], "y:x:y/x:y") == Extraction(["y:x:y", "x:y"], true)
  {
    var segs, raw := Repeated(), "y:x:y/x:y";
    assert segs[2..][1..] == segs[3..] && segs[3..][1..] == segs[4..] && segs[4..][1..] == [];
    forall j | 0 <= j <= 5
      ensures At(raw, "/", j) <==> j == 5
    {
      CharAt(raw, '/', j);
    }
    FirstOccurrence(raw, "/", 5);
    assert raw[5..] == "/x:y" && raw[5..][1..] == "x:y" && raw[..5] == "y:x:y";
    assert Extract(segs[4..], "x:y") == Extraction(["x:y"], true);
    assert Extract(segs[3..], "/x:y") == Extraction(["x:y"], true);
    assert NextLiteral(segs[3..]) == "/";
  }

  lemma {:induction false} RepeatedCuts()
    ensures var segs, v := Repeated(), ["x:y"];
            !Decodable(segs, v) && Extract(segs, Encoded(segs, v)) == Extraction(["x", "y:x:y", "x:y"], true)
  {
    var segs, raw := Repeated(), "x:y:x:y/x:y";
    RepeatedKey();
    RepeatedTail();
    assert segs[1..][1..] == segs[2..];
    CharAt(raw, ':', 0);
    CharAt(raw, ':', 1);
    FirstOccurrence(raw, ":", 1);
    assert NextLiteral(segs[1..]) == ":";
    assert raw[..1] == "x" && raw[1..] == ":y:x:y/x:y" && raw[1..][1..] == "y:x:y/x:y";
    assert Extract(segs[1..], raw[1..]) == Extraction(["y:x:y", "x:y"], true);
    CharAt("x:y" + ":", ':', 1);
  }

  /** Not so when a field is repeated: "{A}:{A}/{A}" restores A = "x:y" in every struct although it is cut
      wrongly twice on the way. */
  lemma {:induction false} RepeatedFieldMasksError(a: string)
    ensures var segs, v := Repeated(), ["x:y"];
            && !Decodable(segs, v) && Extract(segs, Encoded(segs, v)) == Extraction(["x", "y:x:y", "x:y"], true)
            && Restores(segs, v, [a])
  {
    RepeatedCuts();
    RepeatedLast();
    RestoresExactly(Repeated(), ["x:y"], [a]);
  }

  lemma {:induction false} RepeatedLast()
    ensures LastCutsRight(Repeated(), ["x:y"])
  {
    RepeatedCuts();
    RepeatedFields();
    var idx := [0, 0, 0];
    forall j | 0 <= j < 2
      ensures idx[j] in idx[j + 1..]
    {
      assert idx[j + 1..][0] == 0;
    }
  }

  lemma {:induction false} RepeatedFields()
    ensures Fields(Repeated()) == [0, 0, 0]
  {
    var segs := Repeated();
    assert segs[1..][1..] == segs[2..] && segs[2..][1..] == segs[3..] && segs[3..][1..] == segs[4..];
    assert segs[4..][1..] == [];
    assert Fields(segs[4..]) == [0] && Fields(segs[2..]) == [0, 0];
  }

  // ----- Derived attributes -----

  datatype Derived = Derived(index: nat, format: seq<Segment>)

  predicate DerivedInRange(ds: seq<Derived>, n: nat) {
    forall d :: d in ds ==> d.index < n && InRange(d.format, n)
  }

  function Applied(ds: seq<Derived>, v: seq<string>): (r: seq<string>)
    requires DerivedInRange(ds, |v|)
    ensures |r| == |v|
    decreases |ds|
  {
    if ds == [] then v
    else Applied(ds[1..], v[ds[0].index := Encoded(ds[0].format, v)])
  }

  /** How many attributes are recomputed before the first whose pattern cannot be printed. */
  function Printable(ds: seq<Derived>, bad: set<nat>): (n: nat)
    ensures n <= |ds| && (forall i :: 0 <= i < n ==> Marshals(ds[i].format, bad))
    ensures n < |ds| ==> !Marshals(ds[n].format, bad)
  {
    if ds == [] || !Marshals(ds[0].format, bad) then 0 else 1 + Printable(ds[1..], bad)
  }

  /** Recompute in struct order. An attribute that cannot be printed ends the pass; those before it have
      their new values. */
  method ApplyDerived(ds: seq<Derived>, v: array<string>, bad: set<nat>) returns (ok: bool)
    requires DerivedInRange(ds, v.Length)
    modifies v
    ensures ok == (Printable(ds, bad) == |ds|)
    ensures ok <==> forall i, s :: 0 <= i < |ds| && s in ds[i].format && s.Field? ==> s.index !in bad
    ensures DerivedInRange(ds[..Printable(ds, bad)], v.Length)
            && v[..] == Applied(ds[..Printable(ds, bad)], old(v[..]))
  {
    ghost var n := Printable(ds, bad);
    assert DerivedInRange(ds[..n], v.Length);
    var i := 0;
    while i < |ds|
      invariant 0 <= i <= n
      invariant DerivedInRange(ds[i..n], v.Length)
      invariant Applied(ds[i..n], v[..]) == Applied(ds[..n], old(v[..]))
    {
      assert ds[i] in ds;
      var s, printed := Encode(ds[i].format, v, bad);
      if !printed {
        assert ds[i..n] == [];
        return false;
      }
      assert ds[i..n][1..] == ds[i + 1..n];
      ghost var before := v[..];
      v[ds[i].index] := s;
      assert v[..] == before[ds[i].index := s];
      i := i + 1;
    }
    assert ds[i..n] == [];
    ok := true;
  }

  /** Each pattern reads only fields that are not derived, or derived earlier in struct order, and no
      field is derived twice. */
  predicate ReadsEarlier(ds: seq<Derived>) {
    forall i, j :: 0 <= i <= j < |ds| ==>
      Field(ds[j].index) !in ds[i].format && (i < j ==> ds[i].index != ds[j].index)
  }

  lemma {:induction false} EncodedFrame(segs: seq<Segment>, v: seq<string>, w: seq<string>)
    requires |v| == |w| && InRange(segs, |v|)
    requires forall i :: 0 <= i < |v| && Field(i) in segs ==> v[i] == w[i]
    ensures Encoded(segs, v) == Encoded(segs, w)
  {
    if segs != [] {
      assert segs[0] in segs;
      EncodedFrame(segs[1..], v, w);
    }
  }

  lemma {:induction false} AppliedElsewhere(ds: seq<Derived>, v: seq<string>, i: nat)
    requires DerivedInRange(ds, |v|) && i < |v|
    requires forall d :: d in ds ==> d.index != i
    ensures Applied(ds, v)[i] == v[i]
    decreases |ds|
  {
    if ds != [] {
      AppliedElsewhere(ds[1..], v[ds[0].index := Encoded(ds[0].format, v)], i);
    }
  }

  /** After applying, no derived attribute has drifted: each equals its pattern over the final
      fields, so applying again changes nothing. */
  lemma {:induction false} DerivedAgree(ds: seq<Derived>, v: seq<string>)
    requires DerivedInRange(ds, |v|) && ReadsEarlier(ds)
    ensures forall d :: d in ds ==> Applied(ds, v)[d.index] == Encoded(d.format, Applied(ds, v))
    decreases |ds|
  {
    if ds != [] {
      var d0, rest := ds[0], ds[1..];
      var v' := v[d0.index := Encoded(d0.format, v)];
      var end := Applied(ds, v);
      DerivedAgree(rest, v');
      AppliedElsewhere(rest, v', d0.index);
      forall i | 0 <= i < |v| && Field(i) in d0.format
        ensures v[i] == end[i]
      {
        assert v'[i] == v[i];
        AppliedElsewhere(rest, v', i);
      }
      EncodedFrame(d0.format, v, end);
    }
  }

  lemma {:induction false} AppliedFixed(ds: seq<Derived>, v: seq<string>)
    requires DerivedInRange(ds, |v|)
    requires forall d :: d in ds ==> v[d.index] == Encoded(d.format, v)
    ensures Applied(ds, v) == v
    decreases |ds|
  {
    if ds != [] {
      assert ds[0] in ds;
      assert v[ds[0].index := Encoded(ds[0].format, v)] == v;
      AppliedFixed(ds[1..], v);
    }
  }

  lemma {:induction false} ApplyTwiceIsOnce(ds: seq<Derived>, v: seq<string>)
    requires DerivedInRange(ds, |v|) && ReadsEarlier(ds)
    ensures Applied(ds, Applied(ds, v)) == Applied(ds, v)
  {
    DerivedAgree(ds, v);
    AppliedFixed(ds, Applied(ds, v));
  }

  // ----- Patterns that read a later attribute -----

  predicate DerivedOnce(ds: seq<Derived>) {
    forall i, j :: 0 <= i < j < |ds| ==> ds[i].index != ds[j].index
  }

  /** Attribute `a` is computed from attribute `b`. */
  predicate ReadsAttribute(ds: seq<Derived>, a: nat, b: nat)
    requires a < |ds| && b < |ds|
  {
    Field(ds[b].index) in ds[a].format
  }

  /** Pattern `i` reads an attribute that is recomputed after it, or itself. */
  predicate ReadsLater(ds: seq<Derived>, i: nat)
    requires i < |ds|
  {
    exists j :: i <= j < |ds| && ReadsAttribute(ds, i, j)
  }

  /** Every derived attribute equals its pattern over the fields. */
  predicate Agree(ds: seq<Derived>, v: seq<string>)
    requires DerivedInRange(ds, |v|)
  {
    forall d :: d in ds ==> v[d.index] == Encoded(d.format, v)
  }

  lemma {:induction false} AppliedSplits(ds: seq<Derived>, v: seq<string>, i: nat)
    requires DerivedInRange(ds, |v|) && i <= |ds|
    ensures DerivedInRange(ds[..i], |v|) && DerivedInRange(ds[i..], |v|)
    ensures Applied(ds, v) == Applied(ds[i..], Applied(ds[..i], v))
    decreases |ds|
  {
    if i > 0 {
      assert ds[0] in ds && ds[..i][1..] == ds[1..][..i - 1] && ds[1..][i - 1..] == ds[i..];
      AppliedSplits(ds[1..], v[ds[0].index := Encoded(ds[0].format, v)], i - 1);
    } else {
      assert ds[..0] == [] && ds[0..] == ds;
    }
  }

  /** What an attribute holds at the end is its pattern over the fields as they were at its turn. */
  lemma {:induction false} AppliedAt(ds: seq<Derived>, v: seq<string>, i: nat)
    requires DerivedInRange(ds, |v|) && DerivedOnce(ds) && i < |ds|
    ensures DerivedInRange(ds[..i], |v|) && ds[i].index < |v| && InRange(ds[i].format, |v|)
    ensures Applied(ds, v)[ds[i].index] == Encoded(ds[i].format, Applied(ds[..i], v))
  {
    AppliedSplits(ds, v, i);
    var mid := Applied(ds[..i], v);
    assert ds[i] in ds && ds[i..][0] == ds[i] && ds[i..][1..] == ds[i + 1..];
    var next := mid[ds[i].index := Encoded(ds[i].format, mid)];
    forall d | d in ds[i + 1..]
      ensures d.index != ds[i].index
    {
      var j :| 0 <= j < |ds[i + 1..]| && ds[i + 1..][j] == d;
      assert ds[i + 1 + j] == d;
    }
    AppliedElsewhere(ds[i + 1..], next, ds[i].index);
  }

  /** A pattern that reads nothing recomputed from its turn on reads the final fields. */
  lemma {:induction false} EarlierReadsFinal(ds: seq<Derived>, v: seq<string>, i: nat)
    requires DerivedInRange(ds, |v|) && i < |ds| && !ReadsLater(ds, i)
    ensures DerivedInRange(ds[..i], |v|) && InRange(ds[i].format, |v|)
    ensures Encoded(ds[i].format, Applied(ds[..i], v)) == Encoded(ds[i].format, Applied(ds, v))
  {
    AppliedSplits(ds, v, i);
    assert ds[i] in ds;
    var mid, end := Applied(ds[..i], v), Applied(ds, v);
    forall f | 0 <= f < |v| && Field(f) in ds[i].format
      ensures mid[f] == end[f]
    {
      forall d | d in ds[i..]
        ensures d.index != f
      {
        var j :| 0 <= j < |ds[i..]| && ds[i..][j] == d;
        assert ds[i + j] == d && !ReadsAttribute(ds, i, i + j);
      }
      AppliedElsewhere(ds[i..], mid, f);
    }
    EncodedFrame(ds[i].format, mid, end);
  }

  /** Only patterns that read a later attribute can be left behind by a pass. */
  lemma {:induction false} OnlyLaterReadersLag(ds: seq<Derived>, v: seq<string>)
    requires DerivedInRange(ds, |v|) && DerivedOnce(ds)
    ensures forall i :: 0 <= i < |ds| ==> DerivedInRange(ds[..i], |v|) && InRange(ds[i].format, |v|)
    ensures Agree(ds, Applied(ds, v)) <==>
            forall i :: 0 <= i < |ds| && ReadsLater(ds, i) ==>
                          Encoded(ds[i].format, Applied(ds[..i], v)) == Encoded(ds[i].format, Applied(ds, v))
  {
    var end := Applied(ds, v);
    forall i | 0 <= i < |ds|
      ensures DerivedInRange(ds[..i], |v|) && ds[i].index < |v| && InRange(ds[i].format, |v|)
      ensures end[ds[i].index] == Encoded(ds[i].format, Applied(ds[..i], v))
      ensures !ReadsLater(ds, i) ==> end[ds[i].index] == Encoded(ds[i].format, end)
    {
      AppliedAt(ds, v, i);
      if !ReadsLater(ds, i) {
        EarlierReadsFinal(ds, v, i);
      }
    }
    assert forall i :: 0 <= i < |ds| ==> ds[i] in ds;
  }

  // ----- Which patterns never lag -----

  /** No attribute is computed from itself, through however many others: `rank` orders them. */
  ghost predicate Ranked(ds: seq<Derived>, rank: seq<nat>) {
    && |rank| == |ds|
    && forall a, b :: 0 <= a < |ds| && 0 <= b < |ds| && ReadsAttribute(ds, a, b) ==> rank[a] > rank[b]
  }

  /** Field `f` may differ once the first `k` attributes are recomputed, if only the old text of attribute
      `j` differed at first: that text itself until its turn, and what is computed from it. */
  ghost predicate Tainted(ds: seq<Derived>, rank: seq<nat>, j: nat, k: nat, f: nat)
    requires |rank| == |ds| && j < |ds| && k <= |ds|
  {
    || (k <= j && f == ds[j].index)
    || exists a :: 0 <= a < k && ds[a].index == f && rank[a] > rank[j]
  }

  lemma {:induction false} TaintSpreads(ds: seq<Derived>, v: seq<string>, w: seq<string>, rank: seq<nat>, j: nat, k: nat, f: nat)
    requires |v| == |w| && DerivedInRange(ds, |v|) && Ranked(ds, rank) && j < |ds| && k <= |ds|
    requires forall g: nat :: g < |v| && g != ds[j].index ==> v[g] == w[g]
    requires f < |v| && !Tainted(ds, rank, j, k, f)
    ensures DerivedInRange(ds[..k], |v|) && Applied(ds[..k], v)[f] == Applied(ds[..k], w)[f]
    decreases k
  {
    if k > 0 {
      AppliedSnoc(ds, v, k - 1);
      AppliedSnoc(ds, w, k - 1);
      if f != ds[k - 1].index {
        TaintStays(ds, rank, j, k, f);
        TaintSpreads(ds, v, w, rank, j, k - 1, f);
      } else {
        forall g | 0 <= g < |v| && Field(g) in ds[k - 1].format
          ensures Applied(ds[..k - 1], v)[g] == Applied(ds[..k - 1], w)[g]
        {
          UntaintedRead(ds, rank, j, k - 1, g);
          TaintSpreads(ds, v, w, rank, j, k - 1, g);
        }
        EncodedFrame(ds[k - 1].format, Applied(ds[..k - 1], v), Applied(ds[..k - 1], w));
      }
    }
  }

  lemma {:induction false} TaintStays(ds: seq<Derived>, rank: seq<nat>, j: nat, k: nat, f: nat)
    requires |rank| == |ds| && j < |ds| && 0 < k <= |ds| && f != ds[k - 1].index && !Tainted(ds, rank, j, k, f)
    ensures !Tainted(ds, rank, j, k - 1, f)
  {
  }

  lemma {:induction false} UntaintedRead(ds: seq<Derived>, rank: seq<nat>, j: nat, k: nat, g: nat)
    requires Ranked(ds, rank) && j < |ds| && k < |ds| && Field(g) in ds[k].format
    requires !Tainted(ds, rank, j, k + 1, ds[k].index)
    ensures !Tainted(ds, rank, j, k, g)
  {
    assert rank[k] <= rank[j];
    assert !ReadsAttribute(ds, k, j);
    forall a | 0 <= a < k && rank[a] > rank[j]
      ensures ds[a].index != g
    {
      assert !ReadsAttribute(ds, k, a);
    }
  }

  lemma {:induction false} AppliedSnoc(ds: seq<Derived>, v: seq<string>, k: nat)
    requires DerivedInRange(ds, |v|) && k < |ds|
    ensures DerivedInRange(ds[..k], |v|) && DerivedInRange(ds[..k + 1], |v|)
    ensures ds[k].index < |v| && InRange(ds[k].format, |v|)
    ensures Applied(ds[..k + 1], v) == Applied(ds[..k], v)[ds[k].index := Encoded(ds[k].format, Applied(ds[..k], v))]
  {
    assert ds[k] in ds;
    AppliedSplits(ds[..k + 1], v, k);
    assert ds[..k + 1][..k] == ds[..k] && ds[..k + 1][k..] == [ds[k]] && [ds[k]][1..] == [];
  }

  /** If each field read has the same text in `x` and `y`, or in `y` and `u`, and field `f` is read, with
      its text in `x` longer than all of `u`, then `x` prints more than `y`. */
  lemma {:induction false} LongerText(segs: seq<Segment>, x: seq<string>, y: seq<string>, u: seq<string>, f: nat)
    requires |x| == |y| == |u| && InRange(segs, |x|) && f < |x|
    requires forall g: nat :: g < |x| && Field(g) in segs ==> x[g] == y[g] || y[g] == u[g]
    requires y[f] == u[f]
    ensures |Encoded(segs, y)| + (if Field(f) in segs then |x[f]| else 0) <= |Encoded(segs, x)| + |Encoded(segs, u)|
    decreases |segs|
  {
    if segs != [] {
      assert segs[0] in segs && segs == [segs[0]] + segs[1..];
      LongerText(segs[1..], x, y, u, f);
    }
  }

  function Repeat(n: nat): string {
    seq(n, _ => 'x')
  }

  /** Among the attributes that pattern `i` reads too early, one that none of the others is computed from. */
  lemma {:induction false} TopLaterRead(ds: seq<Derived>, rank: seq<nat>, i: nat, m: nat) returns (j: nat)
    requires |rank| == |ds| && i < m <= |ds|
    requires exists a :: i <= a < m && ReadsAttribute(ds, i, a)
    ensures i <= j < m && ReadsAttribute(ds, i, j)
    ensures forall a :: i <= a < m && ReadsAttribute(ds, i, a) ==> rank[a] <= rank[j]
    decreases m
  {
    if exists a :: i <= a < m - 1 && ReadsAttribute(ds, i, a) {
      j := TopLaterRead(ds, rank, i, m - 1);
      if ReadsAttribute(ds, i, m - 1) && rank[m - 1] > rank[j] {
        j := m - 1;
      }
    } else {
      j := m - 1;
    }
  }

  /** What pattern `i` reads, at its turn (`mid`) and at the end: attributes to come hold their old text and
      then one that does not depend on the old text of `j`; everything else is the same. */
  lemma {:induction false} ReadsAtTurn(ds: seq<Derived>, v: seq<string>, w: seq<string>, rank: seq<nat>, i: nat, j: nat, g: nat)
    requires |v| == |w| && DerivedInRange(ds, |v|) && DerivedOnce(ds) && Ranked(ds, rank) && i <= j < |ds|
    requires forall f: nat :: f < |v| && f != ds[j].index ==> v[f] == w[f]
    requires forall a :: i <= a < |ds| && ReadsAttribute(ds, i, a) ==> rank[a] <= rank[j]
    requires g < |v| && Field(g) in ds[i].format
    ensures DerivedInRange(ds[..i], |v|)
    ensures Applied(ds[..i], v)[g] == Applied(ds, v)[g] || Applied(ds, v)[g] == Applied(ds, w)[g]
  {
    AppliedSplits(ds, v, i);
    if a :| i <= a < |ds| && ds[a].index == g {
      assert ReadsAttribute(ds, i, a);
      AttributeUntainted(ds, v, w, rank, j, a);
    } else {
      forall d | d in ds[i..]
        ensures d.index != g
      {
        var a :| 0 <= a < |ds[i..]| && ds[i..][a] == d;
        assert ds[i + a] == d;
      }
      AppliedElsewhere(ds[i..], Applied(ds[..i], v), g);
    }
  }

  lemma {:induction false} AttributeUntainted(ds: seq<Derived>, v: seq<string>, w: seq<string>, rank: seq<nat>, j: nat, a: nat)
    requires |v| == |w| && DerivedInRange(ds, |v|) && DerivedOnce(ds) && Ranked(ds, rank) && j < |ds| && a < |ds|
    requires forall f: nat :: f < |v| && f != ds[j].index ==> v[f] == w[f]
    requires rank[a] <= rank[j]
    ensures ds[a].index < |v| && Applied(ds, v)[ds[a].index] == Applied(ds, w)[ds[a].index]
  {
    assert ds[a] in ds && ds[..|ds|] == ds;
    assert !Tainted(ds, rank, j, |ds|, ds[a].index);
    TaintSpreads(ds, v, w, rank, j, |ds|, ds[a].index);
  }

  /** A pattern that reads an attribute to come is left behind on some item: one whose old text for that
      attribute is long enough. */
  lemma {:induction false} LaterReaderLags(ds: seq<Derived>, n: nat, rank: seq<nat>, i: nat) returns (v: seq<string>)
    requires DerivedInRange(ds, n) && DerivedOnce(ds) && Ranked(ds, rank) && i < |ds| && ReadsLater(ds, i)
    ensures |v| == n && !Agree(ds, Applied(ds, v))
  {
    var j := TopLaterRead(ds, rank, i, |ds|);
    assert ds[i] in ds && ds[j] in ds;
    var f, w := ds[j].index, seq(n, _ => "");
    var u := Applied(ds, w);
    v := w[f := Repeat(|Encoded(ds[i].format, u)| + 1)];
    AppliedSplits(ds, v, i);
    var x, y := Applied(ds[..i], v), Applied(ds, v);
    AttributeUntainted(ds, v, w, rank, j, j);
    TextAtTurn(ds, v, i, j);
    forall g: nat | g < n && Field(g) in ds[i].format
      ensures x[g] == y[g] || y[g] == u[g]
    {
      ReadsAtTurn(ds, v, w, rank, i, j, g);
    }
    LongerText(ds[i].format, x, y, u, f);
    AppliedAt(ds, v, i);
  }

  lemma {:induction false} TextAtTurn(ds: seq<Derived>, v: seq<string>, i: nat, j: nat)
    requires DerivedInRange(ds, |v|) && DerivedOnce(ds) && i <= j < |ds|
    ensures DerivedInRange(ds[..i], |v|) && ds[j].index < |v| && Applied(ds[..i], v)[ds[j].index] == v[ds[j].index]
  {
    AppliedSplits(ds, v, i);
    assert ds[j] in ds;
    forall d | d in ds[..i]
      ensures d.index != ds[j].index
    {
      var a :| 0 <= a < |ds[..i]| && ds[..i][a] == d;
      assert ds[a] == d;
    }
    AppliedElsewhere(ds[..i], v, ds[j].index);
  }

  /** For patterns not computed from themselves, through however many others: a pass leaves no attribute
      behind on any item if and only if no pattern reads an attribute recomputed after it. */
  lemma {:induction false} PatternsAgreeExactly(ds: seq<Derived>, n: nat, rank: seq<nat>)
    requires DerivedInRange(ds, n) && DerivedOnce(ds) && Ranked(ds, rank)
    ensures (forall v: seq<string> :: |v| == n ==> Agree(ds, Applied(ds, v))) <==>
            forall i :: 0 <= i < |ds| ==> !ReadsLater(ds, i)
  {
    if forall i :: 0 <= i < |ds| ==> !ReadsLater(ds, i) {
      forall v: seq<string> | |v| == n
        ensures Agree(ds, Applied(ds, v))
      {
        OnlyLaterReadersLag(ds, v);
      }
    } else {
      var i :| 0 <= i < |ds| && ReadsLater(ds, i);
      var v := LaterReaderLags(ds, n, rank, i);
    }
  }

  /** Patterns that are computed from each other can agree all the same: two attributes that copy one
      another do on every item, although the first reads a later one. */
  lemma {:induction false} MutualCopiesAgree(v: seq<string>)
    requires |v| == 2
    ensures var ds := [Derived(0, [Field(1)]), Derived(1, [Field(0)])];
            DerivedInRange(ds, 2) && ReadsLater(ds, 0) && Agree(ds, Applied(ds, v))
  {
    var ds := [Derived(0, [Field(1)]), Derived(1, [Field(0)])];
    assert DerivedInRange(ds, 2) && ReadsAttribute(ds, 0, 1);
    var w := v[0 := v[1]];
    var end := w[1 := v[1]];
    OneField(1, v);
    OneField(0, w);
    OneField(1, end);
    OneField(0, end);
    assert ds[1..][1..] == [];
    assert Applied(ds, v) == Applied(ds[1..], w) == end;
  }

  lemma {:induction false} OneField(f: nat, v: seq<string>)
    requires f < |v|
    ensures InRange([Field(f)], |v|) && Encoded([Field(f)], v) == v[f]
  {
    assert [Field(f)][1..] == [];
  }

  // ----- A second pass -----

  /** A second pass changes nothing exactly when the first left nothing behind. */
  lemma {:induction false} SecondPassExactly(ds: seq<Derived>, v: seq<string>)
    requires DerivedInRange(ds, |v|) && DerivedOnce(ds)
    ensures Applied(ds, Applied(ds, v)) == Applied(ds, v) <==> Agree(ds, Applied(ds, v))
  {
    var w := Applied(ds, v);
    if Agree(ds, w) {
      AppliedFixed(ds, w);
    }
    if Applied(ds, w) == w {
      FixedAgrees(ds, w);
    }
  }

  lemma {:induction false} FixedAgrees(ds: seq<Derived>, w: seq<string>)
    requires DerivedInRange(ds, |w|) && DerivedOnce(ds) && Applied(ds, w) == w
    ensures Agree(ds, w)
    decreases |ds|
  {
    if ds != [] {
      AppliedAt(ds, w, 0);
      assert ds[..0] == [];
      assert w[ds[0].index := Encoded(ds[0].format, w)] == w;
      FixedAgrees(ds[1..], w);
    }
  }

  /** An attribute that copies a later one lags a pass behind. */
  lemma {:induction false} LaterAttributeLags()
    ensures var ds, v := [Derived(0, [Field(1)]), Derived(1, [Field(2)])], ["", "old", "new"];
            && DerivedInRange(ds, |v|) && Applied(ds, v) == ["old", "new", "new"]
            && Applied(ds, Applied(ds, v)) == ["new", "new", "new"]
  {
    var ds, v := [Derived(0, [Field(1)]), Derived(1, [Field(2)])], ["", "old", "new"];
    assert DerivedInRange(ds, 3);
    assert [Field(1)][1..] == [] && [Field(2)][1..] == [] && ds[1..][1..] == [];
    assert Encoded([Field(1)], v) == "old" && v[0 := "old"] == ["old", "old", "new"];
    assert Encoded([Field(2)], ["old", "old", "new"]) == "new";
    assert Applied(ds, v) == Applied(ds[1..], ["old", "old", "new"]) == ["old", "new", "new"];
    var w := ["old", "new", "new"];
    assert Encoded([Field(1)], w) == "new" && w[0 := "new"] == ["new", "new", "new"];
    assert Encoded([Field(2)], ["new", "new", "new"]) == "new";
  }
}
