/**
 * The two button handlers of baby.py with the UI taken away: the gender
 * resolution both of them start with, the single-image path and the
 * all-phases loop that asks for the four phases in order, stops at the
 * first failure and builds the 2 x 2 grid only when all four arrived.
 * The server is an oracle: `replies[i]` is what it would answer to the
 * request of phase i.
 */
module Orchestrator {
  import opened Wrappers
  import opened Prompt
  import opened Api
  import opened Grid

  /** The three options of the gender radio button. */
  datatype GenderChoice = Chosen(gender: Gender) | Aleatorio

  /**
   * The gender resolution as written. The script calls `random.choice`
   * without importing `random`, so 'Aleatório' raises NameError; `None`
   * stands for that exception.
   */
  function ResolveGenderAsWritten(c: GenderChoice): (r: Option<Gender>)
    ensures r.None? <==> c.Aleatorio?
    ensures c.Chosen? ==> r == Some(c.gender)
  {
    match c
    case Chosen(g) => Some(g)
    case Aleatorio => None
  }

  /** The counterexample: choosing 'Aleatório' yields no gender at all. */
  lemma AleatorioRaises()
    ensures ResolveGenderAsWritten(Aleatorio) == None
  {
  }

  /**
   * The gender resolution as intended, with `random` imported: `pick` is the
   * value `random.choice(['Menino', 'Menina'])` returns. It agrees with the
   * written resolution wherever that one does not raise, and every gender
   * can come out of 'Aleatório'.
   */
  function ResolveGender(c: GenderChoice, pick: Gender): (g: Gender)
    ensures ResolveGenderAsWritten(c).Some? ==> g == ResolveGenderAsWritten(c).value
    ensures c.Aleatorio? ==> g == pick
  {
    match c
    case Chosen(g) => g
    case Aleatorio => pick
  }

  // ---------------------------------------------------------------------
  // Single image

  /** What the single-image button does: the call it makes and the image it shows, if any. */
  datatype SingleRun = SingleRun(gender: Gender, call: Call, shown: Option<Image>)

  /**
   * The single-image handler for the selected phase `age` (one of
   * SINGLE_PHASES). The image is shown exactly when `query_api` returned a
   * non-empty body, and it is that body.
   */
  function GenerateSingle(token: Option<string>, c: GenderChoice, pick: Gender, age: Phase, t: SkinTone, reply: Response): (r: SingleRun)
    requires age in SINGLE_PHASES
    ensures r.gender == ResolveGender(c, pick)
    ensures r.call.sent.None? <==> MissingToken(token)
    ensures r.call.sent.Some? ==> r.call.sent.value == Request(API_URL, "Bearer " + token.value, SinglePayload(age, r.gender, t))
    ensures r.call.result.Some? <==> !MissingToken(token) && reply.status == 200
    ensures r.shown.Some? <==> !MissingToken(token) && reply.status == 200 && reply.content != []
    ensures r.shown.Some? ==> r.shown.value == Image(reply.content)
  {
    var g := ResolveGender(c, pick);
    var call := QueryApi(token, SinglePayload(age, g, t), reply);
    DeliveredExactly(token, SinglePayload(age, g, t), reply);
    if Delivered(call) then SingleRun(g, call, Some(Image(call.result.value)))
    else SingleRun(g, call, None)
  }

  // ---------------------------------------------------------------------
  // All phases: the specification of the loop

  /** The prompt of each phase in a run with gender g and skin tone t. */
  function PromptOf(g: Gender, t: SkinTone): Phase -> Payload
  {
    p => PhasePayload(p, g, t)
  }

  /** The calls of all four phases with the prompts `promptOf`, as if none were skipped. */
  function Calls(token: Option<string>, promptOf: Phase -> Payload, replies: seq<Response>): (calls: seq<Call>)
    requires |replies| == |PHASES|
    ensures |calls| == |PHASES|
  {
    seq(|PHASES|, i requires 0 <= i < |PHASES| => QueryApi(token, promptOf(PHASES[i]), replies[i]))
  }

  /** The calls of all four phases of a run with gender g and skin tone t. */
  function PhaseCalls(token: Option<string>, g: Gender, t: SkinTone, replies: seq<Response>): seq<Call>
    requires |replies| == |PHASES|
  {
    Calls(token, PromptOf(g, t), replies)
  }

  /** The number of leading calls that delivered an image: the phases before the first failure. */
  function Streak(calls: seq<Call>): (n: nat)
    ensures n <= |calls|
    ensures forall i | 0 <= i < n :: Delivered(calls[i])
    ensures n < |calls| ==> !Delivered(calls[n])
  {
    if calls == [] || !Delivered(calls[0]) then 0
    else 1 + Streak(calls[1..])
  }

  /** The requests actually put on the wire by a sequence of calls, in order. */
  function Sent(calls: seq<Call>): (r: seq<Request>)
    ensures |r| <= |calls|
  {
    if calls == [] then []
    else
      var last := calls[|calls| - 1];
      Sent(calls[..|calls| - 1]) + (if last.sent.Some? then [last.sent.value] else [])
  }

  /** The images decoded from the first n replies. */
  function Decoded(replies: seq<Response>, n: nat): (images: seq<Image>)
    requires n <= |replies|
    ensures |images| == n
  {
    seq(n, i requires 0 <= i < n => Image(replies[i].content))
  }

  // ---------------------------------------------------------------------
  // All phases: the loop

  /**
   * The all-phases handler. `gender` is resolved once, before any request;
   * `images` is the list `generated_images`, and `grid` is built only from
   * four images.
   */
  method GenerateAllPhases(token: Option<string>, c: GenderChoice, pick: Gender, t: SkinTone, replies: seq<Response>)
    returns (gender: Gender, requests: seq<Request>, images: seq<Image>, progress: nat, grid: Canvas?)
    requires |replies| == |PHASES|
    ensures gender == ResolveGender(c, pick)
    ensures var calls := PhaseCalls(token, gender, t, replies);
            var n := Streak(calls);
            && images == Decoded(replies, n)
            && progress == n
            && requests == Sent(calls[..if n < |PHASES| then n + 1 else n])
    ensures grid != null <==> |images| == 4
    ensures grid != null ==> fresh(grid) && grid.layers == GridLayers(images)
    ensures grid != null ==> grid.width == 2 * IMAGE_SIZE && grid.height == 2 * IMAGE_SIZE
    ensures grid != null ==>
              forall px, py | 0 <= px < grid.width && 0 <= py < grid.height ::
                grid.Pixel(px, py) == Some(Shown(images[Quadrant(px, py)], px % IMAGE_SIZE, py % IMAGE_SIZE))
  {
    gender := ResolveGender(c, pick);
    requests, images, progress := CollectPhases(token, PromptOf(gender, t), replies);
    if |images| == 4 {
      grid := CreateImageGrid(images);
    } else {
      grid := null;
    }
  }

  /**
   * The `for` loop over the phases: ask for each phase in order, keep each
   * delivered image, stop at the first failure. `requests` are the requests
   * sent, `progress` the number of completed phases the progress bar shows.
   * `promptOf` composes the payload of a phase, as the loop body does.
   */
  method CollectPhases(token: Option<string>, promptOf: Phase -> Payload, replies: seq<Response>)
    returns (requests: seq<Request>, images: seq<Image>, progress: nat)
    requires |replies| == |PHASES|
    ensures var calls := Calls(token, promptOf, replies);
            var n := Streak(calls);
            && images == Decoded(replies, n)
            && progress == n
            && requests == Sent(calls[..if n < |PHASES| then n + 1 else n])
  {
    ghost var calls := Calls(token, promptOf, replies);
    requests, images, progress := [], [], 0;
    var i := 0;
    while i < |PHASES|
      invariant 0 <= i <= |PHASES|
      invariant Streak(calls) >= i
      invariant images == Decoded(replies, i)
      invariant progress == i
      invariant requests == Sent(calls[..i])
    {
      var call := QueryApi(token, promptOf(PHASES[i]), replies[i]);
      assert call == calls[i];
      SentStep(calls, i);
      StreakStep(calls, i);
      if call.sent.Some? {
        requests := requests + [call.sent.value];
      }
      assert requests == Sent(calls[..i + 1]);
      if Delivered(call) {
        images := images + [Image(call.result.value)];
      } else {
        break;
      }
      DecodedStep(replies, i);
      progress := i + 1;
      i := i + 1;
    }
  }

  lemma SentStep(calls: seq<Call>, i: nat)
    requires i < |calls|
    ensures Sent(calls[..i + 1]) == Sent(calls[..i]) + (if calls[i].sent.Some? then [calls[i].sent.value] else [])
  {
    assert calls[..i + 1][..i] == calls[..i];
  }

  lemma DecodedStep(replies: seq<Response>, i: nat)
    requires i < |replies|
    ensures Decoded(replies, i + 1) == Decoded(replies, i) + [Image(replies[i].content)]
  {
  }

  /** Phase i extends a streak of at least i exactly when it delivers. */
  lemma StreakStep(calls: seq<Call>, i: nat)
    requires i < |calls| && Streak(calls) >= i
    ensures Delivered(calls[i]) ==> Streak(calls) >= i + 1
    ensures !Delivered(calls[i]) ==> Streak(calls) == i
  {
  }

  /** The streak is the first undelivered index, or the length when every call delivered. */
  lemma {:induction false} StreakAt(calls: seq<Call>, n: nat)
    requires n <= |calls|
    requires forall i | 0 <= i < n :: Delivered(calls[i])
    requires n < |calls| ==> !Delivered(calls[n])
    ensures Streak(calls) == n
  {
    if n > 0 {
      StreakAt(calls[1..], n - 1);
    }
  }

  // ---------------------------------------------------------------------
  // Properties of a run

  /** All or nothing: the streak reaches 4 exactly when every phase delivered an image. */
  lemma AllOrNothing(token: Option<string>, g: Gender, t: SkinTone, replies: seq<Response>)
    requires |replies| == |PHASES|
    ensures Streak(PhaseCalls(token, g, t, replies)) == |PHASES|
            <==> !MissingToken(token) && forall i | 0 <= i < |PHASES| :: replies[i].status == 200 && replies[i].content != []
  {
    var calls := PhaseCalls(token, g, t, replies);
    forall i | 0 <= i < |PHASES|
      ensures Delivered(calls[i]) <==> !MissingToken(token) && replies[i].status == 200 && replies[i].content != []
    {
      DeliveredExactly(token, PhasePayload(PHASES[i], g, t), replies[i]);
    }
    if Streak(calls) < |PHASES| {
      assert !Delivered(calls[Streak(calls)]);
    }
  }

  /** Without a usable token nothing is sent, no image is collected and no grid is built. */
  lemma NoTokenNothing(token: Option<string>, g: Gender, t: SkinTone, replies: seq<Response>, k: nat)
    requires |replies| == |PHASES| && k <= |PHASES|
    requires MissingToken(token)
    ensures Streak(PhaseCalls(token, g, t, replies)) == 0
    ensures Sent(PhaseCalls(token, g, t, replies)[..k]) == []
  {
    var calls := PhaseCalls(token, g, t, replies);
    StreakAt(calls, 0);
    NothingSent(calls, k);
  }

  lemma {:induction false} NothingSent(calls: seq<Call>, k: nat)
    requires k <= |calls|
    requires forall i | 0 <= i < |calls| :: calls[i].sent.None?
    ensures Sent(calls[..k]) == []
  {
    if k > 0 {
      assert calls[..k][..k - 1] == calls[..k - 1];
      NothingSent(calls, k - 1);
    }
  }

  /**
   * With a token, the requests of the first k phases are exactly one per
   * phase, in the order Bebê, Criança, Adolescente, Adulto, each carrying
   * that phase's prompt for the one resolved gender.
   */
  lemma {:induction false} RequestsInOrder(token: Option<string>, g: Gender, t: SkinTone, replies: seq<Response>, k: nat)
    requires |replies| == |PHASES| && k <= |PHASES|
    requires !MissingToken(token)
    ensures Sent(PhaseCalls(token, g, t, replies)[..k])
            == seq(k, i requires 0 <= i < k => Request(API_URL, "Bearer " + token.value, PhasePayload(PHASES[i], g, t)))
  {
    var calls := PhaseCalls(token, g, t, replies);
    var all := seq(|PHASES|, i requires 0 <= i < |PHASES| => Request(API_URL, "Bearer " + token.value, PhasePayload(PHASES[i], g, t)));
    SentEach(calls, all, k);
    assert all[..k] == seq(k, i requires 0 <= i < k => Request(API_URL, "Bearer " + token.value, PhasePayload(PHASES[i], g, t)));
  }

  /** When call i sends request i, the first k calls send exactly the first k requests. */
  lemma {:induction false} SentEach(calls: seq<Call>, reqs: seq<Request>, k: nat)
    requires |reqs| == |calls| && k <= |calls|
    requires forall i | 0 <= i < |calls| :: calls[i].sent == Some(reqs[i])
    ensures Sent(calls[..k]) == reqs[..k]
  {
    if k > 0 {
      assert calls[..k][..k - 1] == calls[..k - 1];
      SentEach(calls, reqs, k - 1);
      assert reqs[..k] == reqs[..k - 1] + [reqs[k - 1]];
    }
  }

  /**
   * Phase i's picture is the one in cell i of the grid: Bebê top-left,
   * Criança top-right, Adolescente bottom-left, Adulto bottom-right.
   */
  lemma PhaseCells(images: seq<Image>)
    requires |images| == |PHASES|
    ensures GridLayers(images)[0] == Layer(images[0], 0, 0) && PHASES[0] == Bebe
    ensures GridLayers(images)[1] == Layer(images[1], IMAGE_SIZE, 0) && PHASES[1] == Crianca
    ensures GridLayers(images)[2] == Layer(images[2], 0, IMAGE_SIZE) && PHASES[2] == Adolescente
    ensures GridLayers(images)[3] == Layer(images[3], IMAGE_SIZE, IMAGE_SIZE) && PHASES[3] == Adulto
  {
  }
}
