/** Crontab fields: `_parse_field` against the grammar and the value sets it stands for. */
module CronFields {
  import opened Prelude
  import opened Text

  type Names = map<string, int>

  const MONTH_NAMES: Names := map[
    "jan" := 1, "feb" := 2, "mar" := 3, "apr" := 4, "may" := 5, "jun" := 6,
    "jul" := 7, "aug" := 8, "sep" := 9, "oct" := 10, "nov" := 11, "dec" := 12]
  const DOW_NAMES: Names := map[
    "sun" := 0, "mon" := 1, "tue" := 2, "wed" := 3, "thu" := 4, "fri" := 5, "sat" := 6]

  /** The nested `resolve`: a name in any case, else a number. */
  function Resolve(token: string, names: Names): Option<int> {
    if Lower(token) in names then Some(names[Lower(token)]) else ParseInt(token)
  }

  /** `range(start, stop, step)` */
  datatype Span = Span(start: int, stop: int, step: int)

  predicate InSpan(r: Span, v: int)
    requires r.step >= 1
  {
    r.start <= v < r.stop && (v - r.start) % r.step == 0
  }

  function SpanValues(r: Span): set<int>
    requires r.step >= 1
  {
    set v | r.start <= v < r.stop && InSpan(r, v)
  }

  function StepOf(text: string): (step: int)
    ensures step == -1 || step >= 1
  {
    if IsDigit(text) && DigitsValue(text) != 0 then DigitsValue(text) else -1
  }

  /** A part without its step: a star, a dashed range, or one value. */
  function BodySpan(part: string, step: int, lo: int, hi: int, names: Names): (r: Option<Span>)
    requires step >= 1
    ensures r.Some? ==> r.value.step >= 1
  {
    if part == "*" || part == "" then Some(Span(lo, hi + 1, step))
    else
      var dash := IndexOf(part, '-');
      if dash < |part| then
        match (Resolve(part[..dash], names), Resolve(part[dash + 1..], names))
        case (Some(first), Some(last)) => Some(Span(first, last + 1, step))
        case _ => None
      else
        match Resolve(part, names)
        case Some(v) => if step > 1 then Some(Span(v, hi + 1, step)) else Some(Span(v, v + 1, 1))
        case None => None
  }

  /** One comma part: its range, or `None` where the loop body returns `None`. */
  function PartSpan(text: string, lo: int, hi: int, names: Names): (r: Option<Span>)
    ensures r.Some? ==> r.value.step >= 1
  {
    var slash := IndexOf(text, '/');
    var step := if slash < |text| then StepOf(text[slash + 1..]) else 1;
    if step < 0 then None else BodySpan(text[..slash], step, lo, hi, names)
  }

  function PartValues(text: string, lo: int, hi: int, names: Names): set<int> {
    match PartSpan(text, lo, hi, names)
    case Some(r) => SpanValues(r)
    case None => {}
  }

  function UnionOf(parts: seq<string>, lo: int, hi: int, names: Names): set<int> {
    set i, v | 0 <= i < |parts| && v in PartValues(parts[i], lo, hi, names) :: v
  }

  predicate AllParse(parts: seq<string>, lo: int, hi: int, names: Names) {
    forall i :: 0 <= i < |parts| ==> PartSpan(parts[i], lo, hi, names).Some?
  }

  /** What a field denotes: the union of its parts, when all parse and it is a non-empty
      subset of [lo, hi]. */
  function FieldValues(spec: string, lo: int, hi: int, names: Names): Option<set<int>> {
    var parts := Split(spec, ',');
    var values := UnionOf(parts, lo, hi, names);
    if AllParse(parts, lo, hi, names) && values != {} && (forall v :: v in values ==> lo <= v <= hi)
    then Some(values) else None
  }

  /** `_parse_field` */
  method ParseField(spec: string, lo: int, hi: int, names: Names) returns (r: Option<set<int>>)
    ensures r == FieldValues(spec, lo, hi, names)
  {
    hide PartSpan, Split;
    var values: set<int> := {};
    var parts := Split(spec, ',');
    for i := 0 to |parts|
      invariant AllParse(parts[..i], lo, hi, names)
      invariant values == UnionOf(parts[..i], lo, hi, names)
    {
      var rng := PartSpan(parts[i], lo, hi, names);
      assert parts[..i + 1][i] == parts[i];
      if rng.None? {
        return None;
      }
      values := values + SpanValues(rng.value);
      UnionSnoc(parts, i, lo, hi, names);
    }
    assert parts[..|parts|] == parts;
    if values == {} || exists v :: v in values && !(lo <= v <= hi) {
      return None;
    }
    return Some(values);
  }

  lemma UnionSnoc(parts: seq<string>, i: nat, lo: int, hi: int, names: Names)
    requires i < |parts|
    ensures UnionOf(parts[..i + 1], lo, hi, names)
         == UnionOf(parts[..i], lo, hi, names) + PartValues(parts[i], lo, hi, names)
  {
    var front, all := parts[..i], parts[..i + 1];
    assert forall j :: 0 <= j < i ==> all[j] == front[j];
    assert all[i] == parts[i];
  }

  lemma UnionMember(parts: seq<string>, lo: int, hi: int, names: Names, v: int)
    ensures v in UnionOf(parts, lo, hi, names)
       <==> exists p :: p in parts && v in PartValues(p, lo, hi, names)
  {
    if p :| p in parts && v in PartValues(p, lo, hi, names) {
      var i :| 0 <= i < |parts| && parts[i] == p;
    }
  }

  /** The outcome, None included, depends only on which parts occur: not on order or repeats. */
  lemma OrderIrrelevant(s: string, t: string, lo: int, hi: int, names: Names)
    requires forall p :: p in Split(s, ',') <==> p in Split(t, ',')
    ensures FieldValues(s, lo, hi, names) == FieldValues(t, lo, hi, names)
  {
    hide PartSpan, Split;
    var a, b := Split(s, ','), Split(t, ',');
    forall v ensures v in UnionOf(a, lo, hi, names) <==> v in UnionOf(b, lo, hi, names) {
      UnionMember(a, lo, hi, names, v);
      UnionMember(b, lo, hi, names, v);
    }
    assert UnionOf(a, lo, hi, names) == UnionOf(b, lo, hi, names);
    assert AllParse(a, lo, hi, names) <==> forall p :: p in a ==> PartSpan(p, lo, hi, names).Some?;
    assert AllParse(b, lo, hi, names) <==> forall p :: p in b ==> PartSpan(p, lo, hi, names).Some?;
  }

  /** Joining two accepted specs with a comma is union. */
  lemma CommaIsUnion(s: string, t: string, lo: int, hi: int, names: Names)
    requires FieldValues(s, lo, hi, names).Some? && FieldValues(t, lo, hi, names).Some?
    ensures FieldValues(s + "," + t, lo, hi, names)
         == Some(FieldValues(s, lo, hi, names).value + FieldValues(t, lo, hi, names).value)
  {
    hide PartSpan, Split;
    var a, b := Split(s, ','), Split(t, ',');
    SplitConcat(s, t, ',');
    forall v
      ensures v in UnionOf(a + b, lo, hi, names)
         <==> v in UnionOf(a, lo, hi, names) + UnionOf(b, lo, hi, names)
    {
      UnionMember(a, lo, hi, names, v);
      UnionMember(b, lo, hi, names, v);
      UnionMember(a + b, lo, hi, names, v);
    }
    assert UnionOf(a + b, lo, hi, names) == UnionOf(a, lo, hi, names) + UnionOf(b, lo, hi, names);
  }

  // ---- The grammar of a part ----

  /** A part as written: tokens and the step keep their spelling. */
  datatype Item =
    | Every(star: string, step: string)
    | Single(token: string, step: string)
    | Range(first: string, last: string, step: string)

  predicate Numeral(token: string, names: Names) {
    Resolve(token, names).Some?
  }

  predicate WellFormed(item: Item, names: Names) {
    && (item.step == "" || (item.step[0] == '/' && StepOf(item.step[1..]) > 0))
    && match item
       case Every(star, _) => star == "*" || star == ""
       case Single(token, _) =>
         token != "*" && token != "" && '-' !in token && '/' !in token && Numeral(token, names)
       case Range(first, last, _) =>
         '-' !in first && '/' !in first && '/' !in last
         && Numeral(first, names) && Numeral(last, names)
  }

  function Render(item: Item): string {
    match item
    case Every(star, step) => star + step
    case Single(token, step) => token + step
    case Range(first, last, step) => first + "-" + last + step
  }

  function Stride(item: Item): int {
    if item.step == "" then 1 else StepOf(item.step[1..])
  }

  /** The values a written part stands for; a lone value with a step above 1 runs to hi,
      while `v/1` is just v. */
  predicate Denotes(item: Item, lo: int, hi: int, names: Names, v: int)
    requires WellFormed(item, names)
  {
    match item
    case Every(_, _) => lo <= v <= hi && (v - lo) % Stride(item) == 0
    case Single(token, _) =>
      var a := Resolve(token, names).value;
      if Stride(item) == 1 then v == a else a <= v <= hi && (v - a) % Stride(item) == 0
    case Range(first, last, _) =>
      var a, b := Resolve(first, names).value, Resolve(last, names).value;
      a <= v <= b && (v - a) % Stride(item) == 0
  }

  function BodyOf(item: Item): string {
    match item
    case Every(star, _) => star
    case Single(token, _) => token
    case Range(first, last, _) => first + "-" + last
  }

  /** The code cuts a rendered part where the grammar joined it. */
  lemma RenderedCut(item: Item, lo: int, hi: int, names: Names)
    requires WellFormed(item, names)
    ensures PartSpan(Render(item), lo, hi, names)
         == BodySpan(BodyOf(item), Stride(item), lo, hi, names)
  {
    hide IndexOf, StepOf, BodySpan, Resolve;
    var body := BodyOf(item);
    IndexOfConcat(body, item.step, '/');
    assert Render(item) == body + item.step;
    assert Render(item)[..|body|] == body;
    if item.step != "" {
      assert Render(item)[|body| + 1..] == item.step[1..];
    }
  }

  function ItemSpan(item: Item, lo: int, hi: int, names: Names): Span
    requires WellFormed(item, names)
  {
    match item
    case Every(_, _) => Span(lo, hi + 1, Stride(item))
    case Single(token, _) =>
      var v := Resolve(token, names).value;
      if Stride(item) > 1 then Span(v, hi + 1, Stride(item)) else Span(v, v + 1, 1)
    case Range(first, last, _) =>
      Span(Resolve(first, names).value, Resolve(last, names).value + 1, Stride(item))
  }

  lemma ItemSpanDenotes(item: Item, lo: int, hi: int, names: Names, v: int)
    requires WellFormed(item, names)
    ensures Stride(item) >= 1
    ensures InSpan(ItemSpan(item, lo, hi, names), v) <==> Denotes(item, lo, hi, names, v)
  {
    hide Resolve, StepOf;
  }

  lemma RenderedBody(item: Item, lo: int, hi: int, names: Names)
    requires WellFormed(item, names)
    ensures BodySpan(BodyOf(item), Stride(item), lo, hi, names) == Some(ItemSpan(item, lo, hi, names))
  {
    hide Resolve, IndexOf, StepOf;
    if item.Range? {
      var body := BodyOf(item);
      assert body == item.first + ("-" + item.last);
      IndexOfConcat(item.first, "-" + item.last, '-');
      assert body[..|item.first|] == item.first;
      assert body[|item.first| + 1..] == item.last;
    }
  }

  /** Every well-formed part is accepted and stands for exactly what the grammar says. */
  lemma RenderedPart(item: Item, lo: int, hi: int, names: Names, v: int)
    requires WellFormed(item, names)
    ensures PartSpan(Render(item), lo, hi, names).Some?
    ensures v in PartValues(Render(item), lo, hi, names) <==> Denotes(item, lo, hi, names, v)
  {
    hide PartSpan, BodySpan, BodyOf, Render, Stride, WellFormed, Denotes, ItemSpan;
    RenderedCut(item, lo, hi, names);
    RenderedBody(item, lo, hi, names);
    ItemSpanDenotes(item, lo, hi, names, v);
  }

  lemma PiecesLack(s: string, c: char, i: nat)
    requires c !in s && i <= |s|
    ensures c !in s[..i]
    ensures i < |s| ==> c !in s[i + 1..]
  {
  }

  lemma AcceptedBody(part: string, step: string, lo: int, hi: int, names: Names) returns (item: Item)
    requires '/' !in part && (step == "" || (step[0] == '/' && StepOf(step[1..]) > 0))
    requires exists k | k >= 1 :: BodySpan(part, k, lo, hi, names).Some?
    ensures WellFormed(item, names) && Render(item) == part + step
  {
    hide Resolve, IndexOf, StepOf;
    var dash := IndexOf(part, '-');
    PiecesLack(part, '/', dash);
    if part == "*" || part == "" {
      item := Every(part, step);
    } else if dash < |part| {
      item := Range(part[..dash], part[dash + 1..], step);
      assert part == part[..dash] + "-" + part[dash + 1..];
    } else {
      item := Single(part, step);
    }
  }

  /** ... and nothing else is: an accepted part is a rendering. */
  lemma AcceptedPart(text: string, lo: int, hi: int, names: Names) returns (item: Item)
    requires PartSpan(text, lo, hi, names).Some?
    ensures WellFormed(item, names) && Render(item) == text
  {
    hide IndexOf, StepOf, BodySpan, WellFormed, Render;
    var slash := IndexOf(text, '/');
    var part, step := text[..slash], text[slash..];
    if step != "" {
      assert step[0] == '/' && step[1..] == text[slash + 1..];
    }
    assert text == part + step;
    item := AcceptedBody(part, step, lo, hi, names);
  }

  predicate Spells(items: seq<Item>, parts: seq<string>, names: Names) {
    && |items| == |parts|
    && forall i :: 0 <= i < |items| ==> WellFormed(items[i], names) && Render(items[i]) == parts[i]
  }

  predicate Denoted(items: seq<Item>, lo: int, hi: int, names: Names, v: int)
    requires forall i :: 0 <= i < |items| ==> WellFormed(items[i], names)
  {
    exists i :: 0 <= i < |items| && Denotes(items[i], lo, hi, names, v)
  }

  /** `_parse_field` against the grammar: it accepts exactly the comma-joined well-formed parts
      that together denote a non-empty subset of [lo, hi], and returns what they denote. */
  lemma FieldMeaning(spec: string, lo: int, hi: int, names: Names, items: seq<Item>)
    requires Spells(items, Split(spec, ','), names)
    ensures var accepted := && (exists v :: Denoted(items, lo, hi, names, v))
                            && (forall v :: Denoted(items, lo, hi, names, v) ==> lo <= v <= hi);
            FieldValues(spec, lo, hi, names).Some? <==> accepted
    ensures FieldValues(spec, lo, hi, names).Some? ==>
              forall v :: v in FieldValues(spec, lo, hi, names).value
                     <==> Denoted(items, lo, hi, names, v)
  {
    hide PartSpan, PartValues, Split, Render, WellFormed, Denotes;
    var parts := Split(spec, ',');
    var values := UnionOf(parts, lo, hi, names);
    forall i | 0 <= i < |items| ensures PartSpan(parts[i], lo, hi, names).Some? {
      RenderedPart(items[i], lo, hi, names, lo);
    }
    forall v ensures v in values <==> Denoted(items, lo, hi, names, v) {
      forall i | 0 <= i < |items|
        ensures v in PartValues(parts[i], lo, hi, names) <==> Denotes(items[i], lo, hi, names, v)
      {
        RenderedPart(items[i], lo, hi, names, v);
      }
    }
    assert values != {} ==> exists v :: v in values;
  }

  lemma SpellOut(parts: seq<string>, lo: int, hi: int, names: Names)
    returns (items: seq<Item>)
    requires AllParse(parts, lo, hi, names)
    ensures Spells(items, parts, names)
  {
    hide PartSpan, Render, WellFormed;
    items := [];
    for i := 0 to |parts|
      invariant Spells(items, parts[..i], names)
    {
      var item := AcceptedPart(parts[i], lo, hi, names);
      items := items + [item];
    }
    assert parts[..|parts|] == parts;
  }

  lemma FieldSubset(spec: string, lo: int, hi: int, names: Names)
    ensures match FieldValues(spec, lo, hi, names)
            case None => true
            case Some(values) =>
              AllParse(Split(spec, ','), lo, hi, names) && forall v :: v in values ==> lo <= v <= hi
  {
  }

  /** What a field is, in full: it is accepted with result `values` exactly when its comma parts
      can be written as grammar items that denote `values`, non-empty and within [lo, hi]. */
  lemma FieldGrammar(spec: string, lo: int, hi: int, names: Names, values: set<int>)
    ensures FieldValues(spec, lo, hi, names) == Some(values)
       <==> exists items :: IsReading(items, spec, lo, hi, names, values)
  {
    var r := FieldValues(spec, lo, hi, names);
    FieldSubset(spec, lo, hi, names);
    hide Split, Denoted, Denotes, WellFormed, Render, FieldValues;
    if FieldValues(spec, lo, hi, names) == Some(values) {
      var items := SpellOut(Split(spec, ','), lo, hi, names);
      FieldMeaning(spec, lo, hi, names, items);
      assert exists v :: Denoted(items, lo, hi, names, v) && v in values;
      assert IsReading(items, spec, lo, hi, names, values);
    }
    if items :| IsReading(items, spec, lo, hi, names, values) {
      FieldMeaning(spec, lo, hi, names, items);
      var v :| v in values;
      assert Denoted(items, lo, hi, names, v);
      forall u | Denoted(items, lo, hi, names, u) ensures lo <= u <= hi {
        assert u in values;
      }
      assert r.Some?;
      forall u ensures u in r.value <==> u in values {
      }
      assert r.value == values;
    }
  }

  /** The items spell the field and denote exactly `values`. */
  ghost predicate IsReading(items: seq<Item>, spec: string, lo: int, hi: int, names: Names, values: set<int>) {
    && Spells(items, Split(spec, ','), names)
    && (exists v :: v in values)
    && (forall v :: v in values <==> Denoted(items, lo, hi, names, v))
    && (forall v :: v in values ==> lo <= v <= hi)
  }
}
