/** The responses of a connection (srcs/Response.cpp) on the wire of its client
    (srcs/IControl.cpp). */
module Exchanges {
  import opened Responses
  import opened Text
  import Body = BodyParsing
  import Clients

  /** The pieces of the responses, one list for each. */
  function PiecesOf(answers: seq<Answer>): seq<seq<string>>
  {
    if answers == [] then [] else PiecesOf(answers[..|answers| - 1]) + [AnswerPieces(answers[|answers| - 1])]
  }

  lemma {:induction false} WireSnoc(answers: seq<Answer>, a: Answer)
    ensures WireText(answers + [a]) == WireText(answers) + Body.Concat(AnswerPieces(a))
    decreases |answers|
  {
    hide AnswerPieces, Body.Concat;
    if answers == [] {
      assert [] + [a] == [a] && [a][1..] == [];
    } else {
      WireSnoc(answers[1..], a);
      assert (answers + [a])[1..] == answers[1..] + [a];
    }
  }

  lemma {:induction false} FlattenedText(answers: seq<Answer>)
    ensures Body.Concat(Clients.Flatten(PiecesOf(answers))) == WireText(answers)
    decreases |answers|
  {
    hide AnswerPieces, Clients.Flatten, Body.Concat;
    if answers == [] {
      NothingFlat();
    } else {
      var before, last := answers[..|answers| - 1], answers[|answers| - 1];
      assert answers == before + [last];
      FlattenedText(before);
      Clients.FlattenSnoc(PiecesOf(before), AnswerPieces(last));
      Body.ConcatAppend(Clients.Flatten(PiecesOf(before)), AnswerPieces(last));
      WireSnoc(before, last);
    }
  }

  lemma NothingFlat()
    ensures Body.Concat(Clients.Flatten([])) == ""
  {
  }

  /** What a connection sends, with what is queued, is read as exactly its responses, in
      order and with nothing behind them. */
  lemma DeliveredAnswers(c: Clients.Client, answers: seq<Answer>)
    requires c.Delivers() && (forall a :: a in answers ==> Framable(a)) && c.responses == PiecesOf(answers)
    ensures ReadAnswers(Body.Concat(c.sent + c.outBuffers), Heads(answers)) == Some((Contents(answers), ""))
    ensures c.mode == Clients.Read ==> ReadAnswers(Body.Concat(c.sent), Heads(answers)) == Some((Contents(answers), ""))
  {
    hide Framable, ReadAnswers, Body.Concat, WireText, Clients.Flatten;
    FlattenedText(answers);
    AnswersReadBack(answers, "");
    assert WireText(answers) + "" == WireText(answers);
    if c.mode == Clients.Read { assert c.sent + c.outBuffers == c.sent; }
  }
}
