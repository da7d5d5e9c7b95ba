/**
 * The body of the `/predict` handler, without the web framework, logging and
 * metrics around it: validate the request, consult the model, classify the
 * probability against the decision threshold, push it onto the drift window
 * and score the window. The model itself is not modelled: its answer for the
 * request is the parameter `p`, which only matters once validation passed.
 */
module Handler {
  import opened Json
  import opened Validator
  import opened Drift

  /** Probabilities at or above this are predicted as a hire. */
  const Threshold: real := 0.35

  /** `int(probabilidade >= 0.35)`. */
  function Classify(p: real): (c: int)
    ensures c == 0 || c == 1
    ensures c == 1 <==> p >= Threshold
  {
    if p >= Threshold then 1 else 0
  }

  /** A higher probability never yields a lower class. */
  lemma ClassifyMonotone(p: real, q: real)
    requires p <= q
    ensures Classify(p) <= Classify(q)
  {
  }

  /** The outcome of a request: `{"erro": ...}` with status 400, or the
      probability and the class the JSON answer carries, together with the
      score the drift gauge is set to (the gauge is not part of the answer). */
  datatype Response =
    | Rejected(erro: string)
    | Predicted(probabilidade: real, previsao: int, drift: real)

  /** The response and the drift window left behind. */
  datatype Served = Served(response: Response, window: seq<real>)

  /** One request. A rejected request never reaches the window; an accepted
      one is classified, pushed and scored. */
  function Handle(w: seq<real>, body: Body, p: real): (r: Served)
    ensures r.response.Predicted? <==> forall i :: 0 <= i < |Schema| ==> Conforms(body, Schema[i])
    ensures r.response.Rejected? ==> r.window == w
    ensures r.response.Rejected? ==>
      exists i :: (0 <= i < |Schema| && ConformsBefore(Schema, body, i) && !Conforms(body, Schema[i])
        && r.response.erro == Message(Schema[i].name, CheckField(body, Schema[i]).kind))
    ensures r.response.Predicted? ==>
      && r.window == Push(w, p)
      && r.response.probabilidade == p
      && (r.response.previsao == 1 <==> p >= Threshold)
      && (r.response.previsao == 0 <==> p < Threshold)
      && r.response.drift == Abs(Mean(r.window) - Baseline)
  {
    match Validate(body)
    case Invalid(field, kind) =>
      assert exists i :: (0 <= i < |Schema| && ConformsBefore(Schema, body, i) && !Conforms(body, Schema[i])
        && Message(field, kind) == Message(Schema[i].name, CheckField(body, Schema[i]).kind)) by {
        var i :| 0 <= i < |Schema| && ConformsBefore(Schema, body, i) && Validate(body) == CheckField(body, Schema[i]);
        assert !Conforms(body, Schema[i]);
      }
      Served(Rejected(Message(field, kind)), w)
    case Ok =>
      var recorded := Record(w, p);
      Served(Predicted(p, Classify(p), recorded.score), recorded.window)
  }

  /** When every probability the model returns lies in [0, 1], the window keeps
      holding probabilities and every reported drift is at most 0.62. */
  lemma HandleKeepsProbabilities(w: seq<real>, body: Body, p: real)
    requires InUnit(w) && 0.0 <= p <= 1.0
    ensures InUnit(Handle(w, body, p).window)
    ensures Handle(w, body, p).response.Predicted? ==> Handle(w, body, p).response.drift <= Baseline
  {
    var r := Handle(w, body, p);
    if r.response.Predicted? {
      PushKeepsInUnit(w, p);
      DriftBounded(r.window);
    }
  }

  /** A request: its decoded body and what the model would answer for it. */
  datatype Request = Request(body: Body, probability: real)

  /** The window after a run of requests handled one after the other. */
  function ServeAll(w: seq<real>, reqs: seq<Request>): seq<real> {
    if |reqs| == 0 then w
    else
      var last := reqs[|reqs| - 1];
      Handle(ServeAll(w, reqs[..|reqs| - 1]), last.body, last.probability).window
  }

  /** The probabilities of the requests that passed validation, in order. */
  function AcceptedProbabilities(reqs: seq<Request>): (ps: seq<real>)
    ensures |ps| <= |reqs|
  {
    if |reqs| == 0 then []
    else
      var last := reqs[|reqs| - 1];
      AcceptedProbabilities(reqs[..|reqs| - 1]) + (if Validate(last.body).Ok? then [last.probability] else [])
  }

  /** Across any run of requests the window holds the last 100 probabilities
      of the accepted requests: rejected requests leave no trace in it. */
  lemma {:induction false} WindowIsLastAccepted(w: seq<real>, reqs: seq<Request>)
    requires |w| <= Capacity
    ensures ServeAll(w, reqs) == LastN(w + AcceptedProbabilities(reqs), Capacity)
  {
    if |reqs| == 0 {
      assert w + [] == w;
    } else {
      var init := reqs[..|reqs| - 1];
      var last := reqs[|reqs| - 1];
      var acc := AcceptedProbabilities(init);
      WindowIsLastAccepted(w, init);
      if Validate(last.body).Ok? {
        LastNAppend(w + acc, last.probability, Capacity);
        assert w + AcceptedProbabilities(reqs) == (w + acc) + [last.probability];
      } else {
        assert AcceptedProbabilities(reqs) == acc + [];
        assert w + AcceptedProbabilities(reqs) == w + acc;
        LastNIdempotent(w + acc, Capacity);
      }
    }
  }
}
