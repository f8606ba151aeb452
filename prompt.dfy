/**
 * Prompt rendering: a fixed template with substitution points for the
 * source language, the target language and the text. The template is an
 * HTML template, so each substituted value passes through the template
 * package's escaper before it is inserted; the escaper is library code and
 * is taken here as an uninterpreted function `esc`.
 */
module Prompt {

  /** The decoded request body. */
  datatype TranslateRequest = TranslateRequest(source: string, target: string, text: string)

  /** The three request fields the template refers to. */
  datatype Field = Source | Target | Text

  /** A template segment: a literal piece followed by one substitution slot.
      The translation template alternates literal text and slots and ends
      with a slot, so it is a sequence of these. */
  datatype Segment = Segment(literal: string, slot: Field)

  function FieldValue(req: TranslateRequest, f: Field): string
  {
    match f
    case Source => req.source
    case Target => req.target
    case Text => req.text
  }

  /** The literal pieces of the translation template, in order. */
  const Intro: string := "You are a professional "
  const To: string := " to "
  const Goal: string := " translator. Your goal is to accurately convey the meaning and nuances of the original "
  const Adhering: string := " text while adhering to "
  const Produce: string := " grammar, vocabulary, and cultural sensitivities.\nProduce only the "
  const Please: string := " translation, without any additional explanations or commentary. Please translate the following "
  const Into: string := " text into "
  const Colon: string := ":\n\n"

  /** The translation template. */
  const Template: seq<Segment> := [
    Segment(Intro, Source), Segment(To, Target), Segment(Goal, Source), Segment(Adhering, Target),
    Segment(Produce, Target), Segment(Please, Source), Segment(Into, Target), Segment(Colon, Text)
  ]

  /** One segment rendered: its literal as is, then the escaped field. */
  function Piece(seg: Segment, esc: string -> string, req: TranslateRequest): string
  {
    seg.literal + esc(FieldValue(req, seg.slot))
  }

  /** A template rendered: the segments' pieces concatenated in order. */
  function Fill(t: seq<Segment>, esc: string -> string, req: TranslateRequest): string
  {
    if t == [] then "" else Piece(t[0], esc, req) + Fill(t[1..], esc, req)
  }

  /** The prompt sent to the model for a request. */
  function Render(esc: string -> string, req: TranslateRequest): string
  {
    Fill(Template, esc, req)
  }

  /** How many slots of a template are filled with field `f`. */
  function SlotCount(t: seq<Segment>, f: Field): nat
  {
    if t == [] then 0 else (if t[0].slot == f then 1 else 0) + SlotCount(t[1..], f)
  }

  /** Total length of a template's literal pieces. */
  function LiteralLength(t: seq<Segment>): nat
  {
    if t == [] then 0 else |t[0].literal| + LiteralLength(t[1..])
  }

  /** The template fills three slots with the source language, four with the
      target language and one with the text, which is its last slot. */
  lemma TemplateShape()
    ensures SlotCount(Template, Source) == 3
    ensures SlotCount(Template, Target) == 4
    ensures SlotCount(Template, Text) == 1
    ensures Template[|Template| - 1].slot == Text
  {
    assert Template[8..] == [];
    assert Template[7..][1..] == Template[8..];
    assert SlotCount(Template[7..], Source) == 0 && SlotCount(Template[7..], Target) == 0 && SlotCount(Template[7..], Text) == 1;
    assert Template[6..][1..] == Template[7..];
    assert SlotCount(Template[6..], Source) == 0 && SlotCount(Template[6..], Target) == 1 && SlotCount(Template[6..], Text) == 1;
    assert Template[5..][1..] == Template[6..];
    assert SlotCount(Template[5..], Source) == 1 && SlotCount(Template[5..], Target) == 1 && SlotCount(Template[5..], Text) == 1;
    assert Template[4..][1..] == Template[5..];
    assert SlotCount(Template[4..], Source) == 1 && SlotCount(Template[4..], Target) == 2 && SlotCount(Template[4..], Text) == 1;
    assert Template[3..][1..] == Template[4..];
    assert SlotCount(Template[3..], Source) == 1 && SlotCount(Template[3..], Target) == 3 && SlotCount(Template[3..], Text) == 1;
    assert Template[2..][1..] == Template[3..];
    assert SlotCount(Template[2..], Source) == 2 && SlotCount(Template[2..], Target) == 3 && SlotCount(Template[2..], Text) == 1;
    assert Template[1..][1..] == Template[2..];
    assert SlotCount(Template[1..], Source) == 2 && SlotCount(Template[1..], Target) == 4 && SlotCount(Template[1..], Text) == 1;
    assert Template[0..][1..] == Template[1..];
    assert SlotCount(Template[0..], Source) == 3 && SlotCount(Template[0..], Target) == 4 && SlotCount(Template[0..], Text) == 1;
    assert Template[0..] == Template;
  }

  /** Rendering two templates one after the other is rendering their
      concatenation. */
  lemma {:induction false} FillAppend(a: seq<Segment>, b: seq<Segment>, esc: string -> string, req: TranslateRequest)
    ensures Fill(a + b, esc, req) == Fill(a, esc, req) + Fill(b, esc, req)
  {
    if a == [] {
      assert a + b == b;
    } else {
      assert (a + b)[1..] == a[1..] + b;
      FillAppend(a[1..], b, esc, req);
    }
  }

  /** Arithmetic step used by FillLength. */
  lemma MulSucc(c: nat, n: nat)
    ensures (c + 1) * n == c * n + n
  {
  }

  /** A rendered template is as long as its literal text plus one escaped
      field per slot. */
  lemma {:induction false} FillLength(t: seq<Segment>, esc: string -> string, req: TranslateRequest)
    ensures |Fill(t, esc, req)| ==
      LiteralLength(t)
      + SlotCount(t, Source) * |esc(req.source)|
      + SlotCount(t, Target) * |esc(req.target)|
      + SlotCount(t, Text) * |esc(req.text)|
  {
    if t != [] {
      FillLength(t[1..], esc, req);
      match t[0].slot
      case Source => MulSucc(SlotCount(t[1..], Source), |esc(req.source)|);
      case Target => MulSucc(SlotCount(t[1..], Target), |esc(req.target)|);
      case Text => MulSucc(SlotCount(t[1..], Text), |esc(req.text)|);
    }
  }

  /** The prompt is the template's literal text plus three escaped copies of
      the source language, four of the target language and one of the text. */
  lemma RenderLength(esc: string -> string, req: TranslateRequest)
    ensures |Render(esc, req)| ==
      LiteralLength(Template) + 3 * |esc(req.source)| + 4 * |esc(req.target)| + |esc(req.text)|
  {
    FillLength(Template, esc, req);
    TemplateShape();
  }

  /** The prompt ends with the escaped text. */
  lemma RenderEndsWithText(esc: string -> string, req: TranslateRequest)
    ensures |esc(req.text)| <= |Render(esc, req)|
    ensures Render(esc, req)[|Render(esc, req)| - |esc(req.text)|..] == esc(req.text)
  {
    var n := |Template| - 1;
    assert Template == Template[..n] + [Segment(Colon, Text)];
    FillAppend(Template[..n], [Segment(Colon, Text)], esc, req);
    assert Fill([Segment(Colon, Text)], esc, req) == Colon + esc(req.text);
  }

  /** Rendering depends on the request only through its escaped fields:
      requests whose fields escape alike give the same text. */
  lemma {:induction false} FillDependsOnEscapedFields(t: seq<Segment>, esc: string -> string, r1: TranslateRequest, r2: TranslateRequest)
    requires esc(r1.source) == esc(r2.source)
    requires esc(r1.target) == esc(r2.target)
    requires esc(r1.text) == esc(r2.text)
    ensures Fill(t, esc, r1) == Fill(t, esc, r2)
  {
    if t != [] {
      FillDependsOnEscapedFields(t[1..], esc, r1, r2);
      assert Piece(t[0], esc, r1) == Piece(t[0], esc, r2);
    }
  }
}
