/** The two lead-capture forms: the submission records their handlers build,
    and the chat message rendered from a record before it is relayed. */
module Relay {
  import opened Optional

  /** The record fields the chat message can show, in the order it shows them. */
  datatype Field = Nome | Email | Telefone | Mensagem | Tipo

  const FieldOrder: seq<Field> := [Nome, Email, Telefone, Mensagem, Tipo]

  /** Where a field stands in the message order; the contact form also reads
      its first four fields from the inputs at these positions. */
  function Rank(f: Field): (r: nat)
    ensures r < |FieldOrder| && FieldOrder[r] == f
  {
    match f
    case Nome => 0
    case Email => 1
    case Telefone => 2
    case Mensagem => 3
    case Tipo => 4
  }

  /** A submission record. A field the record literal does not set is `None`
      (undefined); `data` and `timestamp` are the ISO and the pt-BR clock
      readings taken when the record was built. */
  datatype Submission = Submission(
    nome: Option<string>,
    email: Option<string>,
    telefone: Option<string>,
    mensagem: Option<string>,
    tipo: Option<string>,
    data: string,
    timestamp: string)

  function Value(rec: Submission, f: Field): Option<string> {
    match f
    case Nome => rec.nome
    case Email => rec.email
    case Telefone => rec.telefone
    case Mensagem => rec.mensagem
    case Tipo => rec.tipo
  }

  /** JavaScript truthiness of a string field: defined and not empty. */
  predicate Truthy(o: Option<string>) {
    o.Some? && o.value != ""
  }

  // ---------------------------------------------------------------------------
  // Building the records

  const NewsletterType: string := "Newsletter"
  const ContactType: string := "Contato"

  /** The record of the newsletter form: the e-mail input's value and the type. */
  function NewsletterRecord(email: string, data: string, timestamp: string): (r: Submission)
    ensures Value(r, Email) == Some(email) && Value(r, Tipo) == Some(NewsletterType)
    ensures forall f :: f != Email && f != Tipo ==> !Truthy(Value(r, f))
    ensures r.data == data && r.timestamp == timestamp
  {
    Submission(None, Some(email), None, None, Some(NewsletterType), data, timestamp)
  }

  /** `inputs[i]?.value || ''`: the value of the i-th form input, or the empty
      string when the form has fewer inputs. */
  function InputValue(inputs: seq<string>, i: nat): string {
    if i < |inputs| then inputs[i] else ""
  }

  /** The record of the contact form: its first four inputs, by position,
      and the type. */
  function ContactRecord(inputs: seq<string>, data: string, timestamp: string): (r: Submission)
    ensures forall f :: f != Tipo ==>
      Value(r, f) == Some(if Rank(f) < |inputs| then inputs[Rank(f)] else "")
    ensures Value(r, Tipo) == Some(ContactType)
    ensures r.data == data && r.timestamp == timestamp
  {
    Submission(
      Some(InputValue(inputs, 0)),
      Some(InputValue(inputs, 1)),
      Some(InputValue(inputs, 2)),
      Some(InputValue(inputs, 3)),
      Some(ContactType),
      data, timestamp)
  }

  // ---------------------------------------------------------------------------
  // Rendering the chat message

  const Header: string := "🌟 *Nova mensagem do site Tprom!*\n\n"

  function Label(f: Field): string {
    match f
    case Nome => "👤 *Nome:* "
    case Email => "📧 *E-mail:* "
    case Telefone => "📱 *Telefone:* "
    case Mensagem => "💬 *Mensagem:* "
    case Tipo => "📋 *Tipo:* "
  }

  /** The labelled line that shows value `v` of field `f`. */
  function LineOf(f: Field, v: string): string {
    Label(f) + v + "\n"
  }

  /** The closing blank line and date line; `date` is the pt-BR rendering of
      the clock at the moment the message is built. */
  function Footer(date: string): string {
    "\n⏰ *Data:* " + date
  }

  /** One conditional append of the message template. */
  function Piece(rec: Submission, f: Field): string {
    if Truthy(Value(rec, f)) then LineOf(f, Value(rec, f).value) else ""
  }

  /** The message, appended step by step as the template does. */
  function Render(rec: Submission, date: string): string {
    Header
    + Piece(rec, Nome)
    + Piece(rec, Email)
    + Piece(rec, Telefone)
    + Piece(rec, Mensagem)
    + Piece(rec, Tipo)
    + Footer(date)
  }

  // ---------------------------------------------------------------------------
  // An independent description of the message: the fields it shows, and their lines

  /** The fields of `fs` whose value in `rec` is truthy, in the order of `fs`. */
  function Keep(rec: Submission, fs: seq<Field>): seq<Field> {
    if fs == [] then []
    else (if Truthy(Value(rec, fs[0])) then [fs[0]] else []) + Keep(rec, fs[1..])
  }

  /** The fields the message shows. */
  function Present(rec: Submission): seq<Field> {
    Keep(rec, FieldOrder)
  }

  function LinesOf(rec: Submission, fs: seq<Field>): seq<string> {
    seq(|fs|, i requires 0 <= i < |fs| => LineOf(fs[i], Value(rec, fs[i]).GetOr("")))
  }

  /** The labelled lines of the message, one per shown field. */
  function Lines(rec: Submission): seq<string> {
    LinesOf(rec, Present(rec))
  }

  function Concat(ss: seq<string>): string {
    if ss == [] then "" else ss[0] + Concat(ss[1..])
  }

  function Pieces(rec: Submission, fs: seq<Field>): string {
    if fs == [] then "" else Piece(rec, fs[0]) + Pieces(rec, fs[1..])
  }

  // ---------------------------------------------------------------------------
  // Properties

  lemma {:induction false} KeepIff(rec: Submission, fs: seq<Field>, f: Field)
    ensures f in Keep(rec, fs) <==> f in fs && Truthy(Value(rec, f))
  {
    if fs != [] {
      KeepIff(rec, fs[1..], f);
      assert fs == [fs[0]] + fs[1..];
    }
  }

  /** A field is shown exactly when its value is truthy. */
  lemma PresentIff(rec: Submission, f: Field)
    ensures f in Present(rec) <==> Truthy(Value(rec, f))
  {
    KeepIff(rec, FieldOrder, f);
    assert FieldOrder[Rank(f)] == f;
  }

  predicate Ascending(fs: seq<Field>) {
    forall i, j :: 0 <= i < j < |fs| ==> Rank(fs[i]) < Rank(fs[j])
  }

  lemma {:induction false} KeepAscending(rec: Submission, fs: seq<Field>)
    requires Ascending(fs)
    ensures Ascending(Keep(rec, fs))
    ensures forall g :: g in Keep(rec, fs) ==> g in fs
  {
    if fs != [] {
      var rest := Keep(rec, fs[1..]);
      KeepAscending(rec, fs[1..]);
      forall g | g in rest ensures Rank(fs[0]) < Rank(g) {
        var j :| 1 <= j < |fs| && fs[j] == g;
      }
    }
  }

  /** The shown fields keep the fixed order nome, email, telefone, mensagem, tipo. */
  lemma PresentOrdered(rec: Submission)
    ensures Ascending(Present(rec))
  {
    RankIsPosition();
    KeepAscending(rec, FieldOrder);
  }

  lemma RankIsPosition()
    ensures forall i :: 0 <= i < |FieldOrder| ==> Rank(FieldOrder[i]) == i
  {
    assert Rank(FieldOrder[0]) == 0 && Rank(FieldOrder[1]) == 1 && Rank(FieldOrder[2]) == 2;
    assert Rank(FieldOrder[3]) == 3 && Rank(FieldOrder[4]) == 4;
  }

  /** A line determines its field and its value: labels start with distinct characters. */
  lemma LineInjective(f: Field, v: string, g: Field, w: string)
    requires LineOf(f, v) == LineOf(g, w)
    ensures f == g && v == w
  {
    assert LineOf(f, v)[0] == Label(f)[0];
    assert LineOf(g, w)[0] == Label(g)[0];
    var n := |Label(f)|;
    assert v == LineOf(f, v)[n..|LineOf(f, v)| - 1];
    assert w == LineOf(g, w)[n..|LineOf(g, w)| - 1];
  }

  /** The message has the line "label: v" for field `f` exactly when the
      record's value of `f` is the non-empty string `v`. */
  lemma LineIff(rec: Submission, f: Field, v: string)
    ensures LineOf(f, v) in Lines(rec) <==> Value(rec, f) == Some(v) && v != ""
  {
    var ps := Present(rec);
    if LineOf(f, v) in Lines(rec) {
      var i :| 0 <= i < |ps| && Lines(rec)[i] == LineOf(f, v);
      LineInjective(f, v, ps[i], Value(rec, ps[i]).GetOr(""));
      PresentIff(rec, f);
    }
    if Value(rec, f) == Some(v) && v != "" {
      PresentIff(rec, f);
      var i :| 0 <= i < |ps| && ps[i] == f;
      assert Lines(rec)[i] == LineOf(f, v);
    }
  }

  lemma {:induction false} ConcatKeep(rec: Submission, fs: seq<Field>)
    ensures Concat(LinesOf(rec, Keep(rec, fs))) == Pieces(rec, fs)
  {
    if fs != [] {
      ConcatKeep(rec, fs[1..]);
      var rest := Keep(rec, fs[1..]);
      if Truthy(Value(rec, fs[0])) {
        assert Keep(rec, fs) == [fs[0]] + rest;
        assert LinesOf(rec, [fs[0]] + rest)[1..] == LinesOf(rec, rest);
      } else {
        assert Keep(rec, fs) == rest;
      }
    }
  }

  lemma KeepCons(rec: Submission, f: Field, rest: seq<Field>)
    ensures Keep(rec, [f] + rest) == (if Truthy(Value(rec, f)) then [f] else []) + Keep(rec, rest)
  {
  }

  lemma PiecesCons(rec: Submission, f: Field, rest: seq<Field>)
    ensures Pieces(rec, [f] + rest) == Piece(rec, f) + Pieces(rec, rest)
  {
  }

  lemma PiecesInOrder(rec: Submission)
    ensures Pieces(rec, FieldOrder)
      == Piece(rec, Nome) + (Piece(rec, Email) + (Piece(rec, Telefone)
         + (Piece(rec, Mensagem) + Piece(rec, Tipo))))
  {
    assert FieldOrder == [Nome] + ([Email] + ([Telefone] + ([Mensagem] + ([Tipo] + []))));
    PiecesCons(rec, Tipo, []);
    PiecesCons(rec, Mensagem, [Tipo] + []);
    PiecesCons(rec, Telefone, [Mensagem] + ([Tipo] + []));
    PiecesCons(rec, Email, [Telefone] + ([Mensagem] + ([Tipo] + [])));
    PiecesCons(rec, Nome, [Email] + ([Telefone] + ([Mensagem] + ([Tipo] + []))));
  }

  lemma Regroup(h: string, p1: string, p2: string, p3: string, p4: string, p5: string, f: string)
    ensures h + p1 + p2 + p3 + p4 + p5 + f == h + (p1 + (p2 + (p3 + (p4 + p5)))) + f
  {
  }

  /** The message is the fixed header, then the lines of the shown fields in
      order, then a blank line and the date line. */
  lemma RenderLayout(rec: Submission, date: string)
    ensures Render(rec, date) == Header + Concat(Lines(rec)) + Footer(date)
  {
    ConcatKeep(rec, FieldOrder);
    PiecesInOrder(rec);
    Regroup(Header, Piece(rec, Nome), Piece(rec, Email), Piece(rec, Telefone),
      Piece(rec, Mensagem), Piece(rec, Tipo), Footer(date));
  }

  /** The message starts with the header and ends with the date line, after a blank line. */
  lemma RenderFrame(rec: Submission, date: string)
    ensures |Render(rec, date)| >= |Header| + |Footer(date)|
    ensures Render(rec, date)[..|Header|] == Header
    ensures Render(rec, date)[|Render(rec, date)| - |Footer(date)|..] == Footer(date)
  {
  }

  /** A newsletter message shows the e-mail line (when the e-mail is not empty)
      and the type line, and no name, phone or message line. */
  lemma NewsletterLines(email: string, data: string, timestamp: string)
    ensures Lines(NewsletterRecord(email, data, timestamp))
      == (if email == "" then [] else [LineOf(Email, email)]) + [LineOf(Tipo, NewsletterType)]
  {
    var rec := NewsletterRecord(email, data, timestamp);
    assert FieldOrder == [Nome] + ([Email] + ([Telefone] + ([Mensagem] + ([Tipo] + []))));
    KeepCons(rec, Tipo, []);
    KeepCons(rec, Mensagem, [Tipo] + []);
    KeepCons(rec, Telefone, [Mensagem] + ([Tipo] + []));
    KeepCons(rec, Email, [Telefone] + ([Mensagem] + ([Tipo] + [])));
    KeepCons(rec, Nome, [Email] + ([Telefone] + ([Mensagem] + ([Tipo] + []))));
    assert Present(rec) == (if email == "" then [] else [Email]) + [Tipo];
  }

  /** A contact message has the type line "Contato", and the line for each of
      the first four fields exactly when the input at that field's position
      exists and is not empty. */
  lemma ContactLine(inputs: seq<string>, data: string, timestamp: string, f: Field, v: string)
    ensures LineOf(f, v) in Lines(ContactRecord(inputs, data, timestamp))
      <==> if f == Tipo then v == ContactType
           else v != "" && Rank(f) < |inputs| && inputs[Rank(f)] == v
  {
    LineIff(ContactRecord(inputs, data, timestamp), f, v);
  }
}
