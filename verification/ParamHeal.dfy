/** Optional request parameters a vendor refuses, healed by resending (arslan/llm/param_heal.py). How an error
    message is read is left open. */
module ParamHeal {
  import opened Wrappers

  /** The parameters the program knows by name, and any other. */
  datatype Param =
    | Temperature | TopP | TopK | BlockBinding | ContextManagement | Ttl | Display
    | MaxTokens | MaxCompletionTokens
    | Other(name: string)

  /** The opt-in beta that enables a parameter, or any other beta. */
  datatype Beta = BetaFor(param: Param) | OtherBeta(name: string)

  type Box = map<Param, string>

  /** What of a payload healing can touch: the containers a parameter may sit in, the cache markers, the betas. */
  datatype Body = Body(boxes: seq<Box>, markers: seq<Box>, betas: Option<seq<Beta>>)

  const DROPPABLE := [Temperature, TopP, TopK, BlockBinding, ContextManagement, Ttl, Display]
  const ORDER := DROPPABLE + [MaxTokens]

  predicate HasBeta(key: Param) {
    key == BlockBinding || key == ContextManagement || key == Display
  }

  function RenameOf(key: Param): Option<Param> {
    if key == MaxTokens then Some(MaxCompletionTokens) else None
  }

  /** A parameter learned to be refused, and the name it goes under instead, if any. */
  datatype Heal = Heal(key: Param, instead: Option<Param>)

  // ---------------------------------------------------------------------------
  // Changing a payload
  // ---------------------------------------------------------------------------

  predicate InMarkers(b: Body) {
    exists i :: 0 <= i < |b.markers| && Ttl in b.markers[i]
  }

  /** The first container that has `key`. */
  function BoxWith(boxes: seq<Box>, key: Param): (r: Option<nat>)
    ensures r.Some? ==> r.value < |boxes| && key in boxes[r.value] && forall i :: 0 <= i < r.value ==> key !in boxes[i]
    ensures r.None? ==> forall i :: 0 <= i < |boxes| ==> key !in boxes[i]
  {
    if boxes == [] then None
    else if key in boxes[0] then Some(0)
    else
      var r := BoxWith(boxes[1..], key);
      assert r.Some? ==> boxes[1..][r.value] == boxes[r.value + 1];
      assert forall i :: 1 <= i < |boxes| ==> boxes[i] == boxes[1..][i - 1];
      if r.None? then None else Some(r.value + 1)
  }

  function RemoveFirst<T(==)>(s: seq<T>, x: T): (r: seq<T>)
    ensures multiset(r) == multiset(s) - multiset{x}
  {
    if s == [] then []
    else
      assert s == [s[0]] + s[1..];
      if s[0] == x then s[1..] else [s[0]] + RemoveFirst(s[1..], x)
  }

  function Moved(box: Box, heal: Heal): Box
    requires heal.key in box
  {
    var rest := box - {heal.key};
    if heal.instead.Some? then rest[heal.instead.value := box[heal.key]] else rest
  }

  /** The payload without the parameter, or with it under its other name; None when it has none to change. */
  function Change(b: Body, heal: Heal): Option<Body> {
    if heal.key == Ttl then
      if InMarkers(b) then
        Some(b.(markers := seq(|b.markers|, i requires 0 <= i < |b.markers| => b.markers[i] - {Ttl})))
      else None
    else
      match BoxWith(b.boxes, heal.key)
      case None => None
      case Some(i) =>
        Some(b.(boxes := b.boxes[i := Moved(b.boxes[i], heal)],
                betas := if HasBeta(heal.key) && b.betas.Some?
                         then Some(RemoveFirst(b.betas.value, BetaFor(heal.key))) else b.betas))
  }

  // ---------------------------------------------------------------------------
  // Reading an error
  // ---------------------------------------------------------------------------

  /** Where a message names a parameter, or a parameter's beta, and whether it refuses anything. */
  datatype Reader = Reader(
    position: (Param, string) -> Option<nat>,
    betaPosition: (Param, string) -> Option<nat>,
    refuses: string -> bool)

  datatype Answer = Success | Status(code: int, message: string, param: Option<Param>)

  predicate IsSent(b: Body, key: Param) {
    (exists i :: 0 <= i < |b.boxes| && key in b.boxes[i]) || (key == Ttl && InMarkers(b))
  }

  /** Where the message blames `key`, if it may be what to heal. */
  function Blamed(b: Body, answer: Answer, key: Param, reader: Reader): Option<nat>
    requires answer.Status?
  {
    var named := reader.position(key, answer.message);
    var at := if named.None? && HasBeta(key) then reader.betaPosition(key, answer.message) else named;
    if !IsSent(b, key) || (at.None? && answer.param != Some(key)) then None
    else if RenameOf(key).Some? && reader.position(RenameOf(key).value, answer.message).None? then None
    else Some(if at.None? then 0 else at.value)
  }

  /** The candidate named first, the earlier in the order when two are named at the same place. */
  function FirstBlamed(b: Body, answer: Answer, keys: seq<Param>, reader: Reader): Option<Param>
    requires answer.Status?
  {
    if keys == [] then None
    else
      var best, last := FirstBlamed(b, answer, keys[..|keys| - 1], reader), keys[|keys| - 1];
      var at := Blamed(b, answer, last, reader);
      if at.Some? && (best.None? || Blamed(b, answer, best.value, reader).None?
                      || at.value < Blamed(b, answer, best.value, reader).value)
      then Some(last) else best
  }

  /** No candidate is named before the one chosen, and one is chosen if there is any. */
  lemma {:induction false} FirstBlamedIsFirst(b: Body, answer: Answer, keys: seq<Param>, reader: Reader)
    requires answer.Status?
    ensures match FirstBlamed(b, answer, keys, reader)
            case None => forall k :: k in keys ==> Blamed(b, answer, k, reader).None?
            case Some(key) =>
              && key in keys && Blamed(b, answer, key, reader).Some?
              && forall k :: k in keys && Blamed(b, answer, k, reader).Some? ==>
                   Blamed(b, answer, key, reader).value <= Blamed(b, answer, k, reader).value
  {
    if keys != [] {
      FirstBlamedIsFirst(b, answer, keys[..|keys| - 1], reader);
      assert keys == keys[..|keys| - 1] + [keys[|keys| - 1]];
    }
  }

  /** The parameter to heal: the one the vendor says, if it is a candidate, else the one named first. */
  function ToHeal(b: Body, answer: Answer, reader: Reader): Option<Param>
    requires answer.Status?
  {
    if answer.code !in {400, 422} || !reader.refuses(answer.message) then None
    else if answer.param.Some? then
      if answer.param.value in ORDER && Blamed(b, answer, answer.param.value, reader).Some? then answer.param else None
    else FirstBlamed(b, answer, ORDER, reader)
  }

  /** What is healed and what is sent next; None when the error stands. */
  function Recovered(b: Body, answer: Answer, reader: Reader): Option<(Heal, Body)>
    requires answer.Status?
  {
    match ToHeal(b, answer, reader)
    case None => None
    case Some(key) =>
      var heal := Heal(key, RenameOf(key));
      match Change(b, heal)
      case None => None
      case Some(next) => Some((heal, next))
  }

  /** The message names the parameter, or its beta, or the vendor says it is this one; one that goes under another name
      counts only if the message names that too. */
  ghost predicate Refuses(answer: Answer, key: Param, reader: Reader)
    requires answer.Status?
  {
    && (|| reader.position(key, answer.message).Some?
        || (HasBeta(key) && reader.betaPosition(key, answer.message).Some?)
        || answer.param == Some(key))
    && (RenameOf(key).Some? ==> reader.position(RenameOf(key).value, answer.message).Some?)
  }

  ghost predicate Candidate(b: Body, answer: Answer, key: Param, reader: Reader)
    requires answer.Status?
  {
    key in ORDER && IsSent(b, key) && Refuses(answer, key, reader)
  }

  /** Where the message names the parameter, or else its beta; at the front if it does neither. */
  ghost function NamedAt(answer: Answer, key: Param, reader: Reader): nat
    requires answer.Status?
  {
    if reader.position(key, answer.message).Some? then reader.position(key, answer.message).value
    else if HasBeta(key) && reader.betaPosition(key, answer.message).Some?
    then reader.betaPosition(key, answer.message).value else 0
  }

  lemma BlamedIffCandidate(b: Body, answer: Answer, key: Param, reader: Reader)
    requires answer.Status? && key in ORDER
    ensures Blamed(b, answer, key, reader)
         == if Candidate(b, answer, key, reader) then Some(NamedAt(answer, key, reader)) else None
  {
  }

  /** What can be taken out: a parameter in a container, or the field of a cache marker. */
  predicate CanChange(b: Body, key: Param) {
    if key == Ttl then InMarkers(b) else exists i :: 0 <= i < |b.boxes| && key in b.boxes[i]
  }

  /** An error is healed exactly when there is a parameter to heal (`ToHealIff`) that can be taken out. */
  lemma HealsIff(b: Body, answer: Answer, reader: Reader)
    requires answer.Status?
    ensures match ToHeal(b, answer, reader)
      case None => Recovered(b, answer, reader).None?
      case Some(key) =>
        && (Recovered(b, answer, reader).Some? <==> CanChange(b, key))
        && (Recovered(b, answer, reader).Some? ==> Recovered(b, answer, reader).value.0 == Heal(key, RenameOf(key)))
  {
    if ToHeal(b, answer, reader).Some? {
      var key := ToHeal(b, answer, reader).value;
      ChangesIff(b, Heal(key, RenameOf(key)));
    }
  }

  lemma ChangesIff(b: Body, heal: Heal)
    ensures Change(b, heal).Some? <==> CanChange(b, heal.key)
  {
  }

  /** There is a parameter to heal exactly when the answer refuses something with status 400 or 422 and there is a
      candidate: the one the vendor says, if it says which, or else any. It is that one, or the candidate named
      first. */
  lemma ToHealIff(b: Body, answer: Answer, reader: Reader)
    requires answer.Status?
    ensures ToHeal(b, answer, reader).Some? <==>
      && answer.code in {400, 422} && reader.refuses(answer.message)
      && (if answer.param.Some? then Candidate(b, answer, answer.param.value, reader)
          else exists key :: Candidate(b, answer, key, reader))
    ensures ToHeal(b, answer, reader).Some? ==>
      var key := ToHeal(b, answer, reader).value;
      && Candidate(b, answer, key, reader)
      && (answer.param.Some? ==> key == answer.param.value)
      && (answer.param.None? ==> forall k :: Candidate(b, answer, k, reader) ==>
            NamedAt(answer, key, reader) <= NamedAt(answer, k, reader))
  {
    FirstBlamedIsFirst(b, answer, ORDER, reader);
    forall key | key in ORDER
      ensures Blamed(b, answer, key, reader)
           == if Candidate(b, answer, key, reader) then Some(NamedAt(answer, key, reader)) else None
    {
      BlamedIffCandidate(b, answer, key, reader);
    }
  }

  /** What a heal does to a parameter in a container: gone from the first container that has it, its value under the
      other name if it has one, and one copy of its beta gone; everything else is as it was. */
  lemma ChangeDoes(b: Body, heal: Heal) returns (i: nat)
    requires heal.key != Ttl && heal.instead != Some(heal.key) && Change(b, heal).Some?
    ensures var next := Change(b, heal).value;
      && i < |b.boxes| == |next.boxes| && heal.key in b.boxes[i] && heal.key !in next.boxes[i]
      && (forall j :: 0 <= j < i ==> heal.key !in b.boxes[j])
      && (forall j :: 0 <= j < |b.boxes| && j != i ==> next.boxes[j] == b.boxes[j])
      && (heal.instead.Some? ==>
            heal.instead.value in next.boxes[i] && next.boxes[i][heal.instead.value] == b.boxes[i][heal.key])
      && (forall key :: key != heal.key && heal.instead != Some(key) ==>
            && (key in next.boxes[i] <==> key in b.boxes[i])
            && (key in b.boxes[i] ==> next.boxes[i][key] == b.boxes[i][key]))
      && next.markers == b.markers && (next.betas.Some? <==> b.betas.Some?)
      && BetasOf(next) == BetasOf(b) - if HasBeta(heal.key) then multiset{BetaFor(heal.key)} else multiset{}
  {
    i := BoxWith(b.boxes, heal.key).value;
  }

  // ---------------------------------------------------------------------------
  // The measure
  // ---------------------------------------------------------------------------

  ghost predicate BoxHealable(key: Param) {
    key in ORDER && key != Ttl
  }

  ghost function InBox(box: Box): nat {
    |set k | k in box && BoxHealable(k)|
  }

  ghost function InBoxes(boxes: seq<Box>): nat {
    if boxes == [] then 0 else InBox(boxes[0]) + InBoxes(boxes[1..])
  }

  /** How many healable parameters the payload carries. */
  ghost function Carried(b: Body): nat {
    InBoxes(b.boxes) + if InMarkers(b) then 1 else 0
  }

  lemma {:induction false} InBoxesUpdate(boxes: seq<Box>, i: nat, box: Box)
    requires i < |boxes|
    ensures InBoxes(boxes[i := box]) == InBoxes(boxes) - InBox(boxes[i]) + InBox(box)
  {
    if i == 0 {
      assert boxes[0 := box][1..] == boxes[1..];
    } else {
      assert boxes[i := box][1..] == boxes[1..][i - 1 := box];
      InBoxesUpdate(boxes[1..], i - 1, box);
    }
  }

  lemma MovedCarriesLess(box: Box, heal: Heal)
    requires heal.key in box && BoxHealable(heal.key) && heal.instead == RenameOf(heal.key)
    ensures InBox(Moved(box, heal)) == InBox(box) - 1
  {
    var before := set k | k in box && BoxHealable(k);
    var after := set k | k in Moved(box, heal) && BoxHealable(k);
    assert !BoxHealable(MaxCompletionTokens);
    assert after == before - {heal.key};
  }

  /** Each heal takes one healable parameter out of the payload. */
  lemma ChangeCarriesLess(b: Body, heal: Heal)
    requires heal.key in ORDER && heal.instead == RenameOf(heal.key) && Change(b, heal).Some?
    ensures Carried(Change(b, heal).value) == Carried(b) - 1
  {
    var next := Change(b, heal).value;
    if heal.key == Ttl {
      assert forall i :: 0 <= i < |next.markers| ==> Ttl !in next.markers[i];
    } else {
      var i := BoxWith(b.boxes, heal.key).value;
      MovedCarriesLess(b.boxes[i], heal);
      InBoxesUpdate(b.boxes, i, Moved(b.boxes[i], heal));
    }
  }

  lemma RecoveredCarriesLess(b: Body, answer: Answer, reader: Reader)
    requires answer.Status? && Recovered(b, answer, reader).Some?
    ensures var (heal, next) := Recovered(b, answer, reader).value;
            && heal.key in ORDER && heal.instead == RenameOf(heal.key) && Change(b, heal) == Some(next)
            && Carried(next) == Carried(b) - 1
  {
    var (heal, next) := Recovered(b, answer, reader).value;
    FirstBlamedIsFirst(b, answer, ORDER, reader);
    ChangeCarriesLess(b, heal);
  }

  // ---------------------------------------------------------------------------
  // Sending until it succeeds or cannot be healed
  // ---------------------------------------------------------------------------

  /** Attempt `i` was refused, and what was sent next is what its error heals. */
  ghost predicate HealedAfter(sent: seq<Body>, heals: seq<Heal>, i: nat, answers: nat -> Answer, reader: Reader)
    requires i < |heals| && i + 1 < |sent|
  {
    answers(i).Status? && Recovered(sent[i], answers(i), reader) == Some((heals[i], sent[i + 1]))
  }

  /** The payloads sent, from `first` on, and what was healed after each but the last; attempt `i` is answered
      `answers(i)`. */
  ghost predicate IsRun(first: Body, sent: seq<Body>, heals: seq<Heal>, answers: nat -> Answer, reader: Reader) {
    && |sent| == |heals| + 1 && sent[0] == first
    && forall i :: 0 <= i < |heals| ==> HealedAfter(sent, heals, i, answers, reader)
  }

  /** The last answer is a success, or an error that heals nothing. */
  ghost predicate IsOver(sent: seq<Body>, answers: nat -> Answer, reader: Reader)
    requires sent != []
  {
    var answer := answers(|sent| - 1);
    answer.Success? || Recovered(sent[|sent| - 1], answer, reader).None?
  }

  /** The answer right after a heal no longer names its parameter. */
  predicate Silent(heal: Heal, answer: Answer, reader: Reader) {
    answer.Success? || reader.position(heal.key, if answer.code in {400, 422} then answer.message else "").None?
  }

  /** The answer right after heal `i` no longer names its parameter. */
  ghost predicate SilentNext(heals: seq<Heal>, i: nat, answers: nat -> Answer, reader: Reader)
    requires i < |heals|
  {
    Silent(heals[i], answers(i + 1), reader)
  }

  /** Those of the heals whose next answer no longer named them. */
  ghost function Earned(heals: seq<Heal>, answers: nat -> Answer, reader: Reader): seq<Heal> {
    if heals == [] then []
    else Earned(heals[..|heals| - 1], answers, reader)
         + if Silent(heals[|heals| - 1], answers(|heals|), reader) then [heals[|heals| - 1]] else []
  }

  // ---------------------------------------------------------------------------
  // What resending may change
  // ---------------------------------------------------------------------------

  ghost predicate Droppable(key: Param) {
    key in DROPPABLE
  }

  /** `b` is `a` without some droppable parameters, its `max_tokens` perhaps under the new name, with its value. */
  ghost predicate LighterBox(a: Box, b: Box) {
    && (forall k :: k in b ==>
          || (k in a && b[k] == a[k])
          || (k == MaxCompletionTokens && MaxTokens in a && MaxTokens !in b && b[k] == a[MaxTokens]))
    && (forall k :: k in a && k !in b ==>
        Droppable(k) || (k == MaxTokens && MaxCompletionTokens in b && b[MaxCompletionTokens] == a[MaxTokens]))
  }

  ghost predicate LighterMarker(a: Box, b: Box) {
    b == a || b == a - {Ttl}
  }

  /** Somewhere in the containers `key` was dropped. */
  ghost predicate Dropped(a: Body, b: Body, key: Param) {
    exists i :: 0 <= i < |a.boxes| && i < |b.boxes| && key in a.boxes[i] && key !in b.boxes[i]
  }

  ghost function BetasOf(b: Body): multiset<Beta> {
    if b.betas.None? then multiset{} else multiset(b.betas.value)
  }

  ghost predicate LighterBoxes(a: seq<Box>, b: seq<Box>) {
    |b| == |a| && forall i :: 0 <= i < |a| ==> LighterBox(a[i], b[i])
  }

  ghost predicate LighterMarkers(a: seq<Box>, b: seq<Box>) {
    |b| == |a| && forall i :: 0 <= i < |a| ==> LighterMarker(a[i], b[i])
  }

  /** A beta that is gone enabled a parameter that is gone. */
  ghost predicate LighterBetas(a: Body, b: Body) {
    && (b.betas.None? <==> a.betas.None?)
    && BetasOf(b) <= BetasOf(a)
    && (forall beta :: beta in BetasOf(a) && BetasOf(b)[beta] < BetasOf(a)[beta] ==>
          beta.BetaFor? && HasBeta(beta.param) && Dropped(a, b, beta.param))
  }

  /** `b` asks the same as `a`: it differs only by dropped optional parameters, with their betas, and a renamed
      `max_tokens`. */
  ghost predicate AsksTheSame(a: Body, b: Body) {
    LighterBoxes(a.boxes, b.boxes) && LighterMarkers(a.markers, b.markers) && LighterBetas(a, b)
  }

  lemma SameAsItself(b: Body)
    ensures AsksTheSame(b, b)
  {
  }

  lemma ChangeAsksTheSame(b: Body, heal: Heal)
    requires heal.key in ORDER && heal.instead == RenameOf(heal.key) && Change(b, heal).Some?
    ensures AsksTheSame(b, Change(b, heal).value)
  {
    if heal.key != Ttl {
      var i := BoxWith(b.boxes, heal.key).value;
      MovedIsLighter(b.boxes[i], heal);
      OneBoxLighter(b, Change(b, heal).value, i, heal);
    }
  }

  lemma MovedIsLighter(box: Box, heal: Heal)
    requires heal.key in box && heal.key in ORDER && heal.instead == RenameOf(heal.key)
    ensures LighterBox(box, Moved(box, heal)) && heal.key !in Moved(box, heal)
  {
  }

  lemma OneBoxLighter(a: Body, b: Body, i: nat, heal: Heal)
    requires i < |a.boxes| == |b.boxes| && b.markers == a.markers
    requires forall j :: 0 <= j < |a.boxes| && j != i ==> b.boxes[j] == a.boxes[j]
    requires LighterBox(a.boxes[i], b.boxes[i]) && heal.key in a.boxes[i] && heal.key !in b.boxes[i]
    requires b.betas == if HasBeta(heal.key) && a.betas.Some?
                        then Some(RemoveFirst(a.betas.value, BetaFor(heal.key))) else a.betas
    ensures AsksTheSame(a, b)
  {
    forall j | 0 <= j < |a.boxes| ensures LighterBox(a.boxes[j], b.boxes[j]) {
      if j != i { SameBox(a.boxes[j]); }
    }
    BetaGone(a, b, i, heal);
  }

  lemma SameBox(box: Box)
    ensures LighterBox(box, box)
  {
  }

  lemma BetaGone(a: Body, b: Body, i: nat, heal: Heal)
    requires i < |a.boxes| == |b.boxes| && heal.key in a.boxes[i] && heal.key !in b.boxes[i]
    requires b.betas == if HasBeta(heal.key) && a.betas.Some?
                        then Some(RemoveFirst(a.betas.value, BetaFor(heal.key))) else a.betas
    ensures LighterBetas(a, b)
  {
    assert Dropped(a, b, heal.key);
  }

  lemma SameTwice(a: Body, b: Body, c: Body)
    requires AsksTheSame(a, b) && AsksTheSame(b, c)
    ensures AsksTheSame(a, c)
  {
    forall i | 0 <= i < |a.boxes| ensures LighterBox(a.boxes[i], c.boxes[i]) {
      LighterTwice(a.boxes[i], b.boxes[i], c.boxes[i]);
    }
    forall i | 0 <= i < |a.markers| ensures LighterMarker(a.markers[i], c.markers[i]) {
      assert LighterMarker(a.markers[i], b.markers[i]) && LighterMarker(b.markers[i], c.markers[i]);
    }
    BetasTwice(a, b, c);
  }

  lemma BetasTwice(a: Body, b: Body, c: Body)
    requires LighterBetas(a, b) && LighterBetas(b, c)
    requires LighterBoxes(a.boxes, b.boxes) && LighterBoxes(b.boxes, c.boxes)
    ensures LighterBetas(a, c)
  {
    forall beta | beta in BetasOf(a) && BetasOf(c)[beta] < BetasOf(a)[beta]
      ensures beta.BetaFor? && HasBeta(beta.param) && Dropped(a, c, beta.param)
    {
      if BetasOf(b)[beta] < BetasOf(a)[beta] {
        var i :| 0 <= i < |a.boxes| && beta.param in a.boxes[i] && beta.param !in b.boxes[i];
        assert LighterBox(b.boxes[i], c.boxes[i]) && beta.param !in c.boxes[i];
      } else {
        var i :| 0 <= i < |b.boxes| && beta.param in b.boxes[i] && beta.param !in c.boxes[i];
        assert LighterBox(a.boxes[i], b.boxes[i]) && beta.param in a.boxes[i];
      }
    }
  }

  lemma LighterTwice(a: Box, b: Box, c: Box)
    requires LighterBox(a, b) && LighterBox(b, c)
    ensures LighterBox(a, c)
  {
  }

  lemma OneResend(sent: seq<Body>, heals: seq<Heal>, k: nat, answers: nat -> Answer, reader: Reader)
    requires |sent| == |heals| + 1 && k < |heals| && HealedAfter(sent, heals, k, answers, reader)
    ensures Carried(sent[k + 1]) == Carried(sent[k]) - 1 && AsksTheSame(sent[k], sent[k + 1])
  {
    HealIsLighter(sent[k], answers(k), reader, heals[k], sent[k + 1]);
  }

  lemma OneLess(sent: seq<Body>, heals: seq<Heal>, k: nat, answers: nat -> Answer, reader: Reader)
    requires |sent| == |heals| + 1 && k < |heals| && HealedAfter(sent, heals, k, answers, reader)
    ensures Carried(sent[k + 1]) == Carried(sent[k]) - 1
  {
    OneResend(sent, heals, k, answers, reader);
  }

  /** Attempt by attempt there is one healable parameter fewer. */
  lemma {:induction false} SentCarriesLess(
    first: Body, sent: seq<Body>, heals: seq<Heal>, k: nat, answers: nat -> Answer, reader: Reader)
    requires IsRun(first, sent, heals, answers, reader) && k < |sent|
    ensures Carried(sent[k]) == Carried(first) - k
  {
    if k > 0 {
      SentCarriesLess(first, sent, heals, k - 1, answers, reader);
      OneLess(sent, heals, k - 1, answers, reader);
    }
  }

  /** What holds step by step, of a relation that is reflexive and transitive, holds from the first on. */
  lemma {:induction false} Chain<T(!new)>(r: (T, T) -> bool, s: seq<T>, k: nat)
    requires forall x :: r(x, x)
    requires forall x, y, z :: r(x, y) && r(y, z) ==> r(x, z)
    requires k < |s| && forall i :: 0 <= i < |s| - 1 ==> r(s[i], s[i + 1])
    ensures r(s[0], s[k])
  {
    if k > 0 {
      Chain(r, s, k - 1);
      assert r(s[k - 1], s[k - 1 + 1]);
    }
  }

  lemma SameIsTransitive()
    ensures forall a :: AsksTheSame(a, a)
    ensures forall a, b, c :: AsksTheSame(a, b) && AsksTheSame(b, c) ==> AsksTheSame(a, c)
  {
    forall a ensures AsksTheSame(a, a) { SameAsItself(a); }
    forall a, b, c | AsksTheSame(a, b) && AsksTheSame(b, c) ensures AsksTheSame(a, c) { SameTwice(a, b, c); }
  }

  lemma ResendsAskTheSame(sent: seq<Body>, heals: seq<Heal>, answers: nat -> Answer, reader: Reader)
    requires |sent| == |heals| + 1 && forall i :: 0 <= i < |heals| ==> HealedAfter(sent, heals, i, answers, reader)
    ensures forall i :: 0 <= i < |sent| - 1 ==> AsksTheSame(sent[i], sent[i + 1])
  {
    forall i | 0 <= i < |sent| - 1 ensures AsksTheSame(sent[i], sent[i + 1]) {
      OneResend(sent, heals, i, answers, reader);
    }
  }

  lemma SentAsksTheSame(first: Body, sent: seq<Body>, heals: seq<Heal>, k: nat, answers: nat -> Answer, reader: Reader)
    requires IsRun(first, sent, heals, answers, reader) && k < |sent|
    ensures AsksTheSame(first, sent[k])
  {
    SameIsTransitive();
    ResendsAskTheSame(sent, heals, answers, reader);
    Chain(AsksTheSame, sent, k);
  }

  lemma HealIsLighter(b: Body, answer: Answer, reader: Reader, heal: Heal, next: Body)
    requires answer.Status? && Recovered(b, answer, reader) == Some((heal, next))
    ensures Carried(next) == Carried(b) - 1 && AsksTheSame(b, next)
    ensures heal.key in ORDER && heal.instead == RenameOf(heal.key)
  {
    RecoveredCarriesLess(b, answer, reader);
    ChangeAsksTheSame(b, heal);
  }

  // ---------------------------------------------------------------------------
  // What is remembered
  // ---------------------------------------------------------------------------

  type Lessons = map<Param, Option<Param>>

  function Learn(lessons: Lessons, kept: seq<Heal>): Lessons {
    if kept == [] then lessons else Learn(lessons, kept[..|kept| - 1])[kept[|kept| - 1].key := kept[|kept| - 1].instead]
  }

  /** What an endpoint's lessons are after a request that ended with `outcome`. */
  ghost function Remembered(lessons: Lessons, outcome: Answer, heals: seq<Heal>, answers: nat -> Answer, reader: Reader)
    : Lessons
  {
    if outcome.Success? then Learn(lessons, Earned(heals, answers, reader)) else lessons
  }

  lemma {:induction false} EarnedIs(heals: seq<Heal>, answers: nat -> Answer, reader: Reader, h: Heal)
    ensures h in Earned(heals, answers, reader) <==>
      exists i :: 0 <= i < |heals| && heals[i] == h && SilentNext(heals, i, answers, reader)
  {
    if heals != [] {
      var before, last := heals[..|heals| - 1], |heals| - 1;
      EarnedIs(before, answers, reader, h);
      if h in Earned(before, answers, reader) {
        var i :| 0 <= i < |before| && before[i] == h && SilentNext(before, i, answers, reader);
        assert heals[i] == h && SilentNext(heals, i, answers, reader);
      } else if h in Earned(heals, answers, reader) {
        assert heals[last] == h && SilentNext(heals, last, answers, reader);
      }
      if exists i :: 0 <= i < |heals| && heals[i] == h && SilentNext(heals, i, answers, reader) {
        var i :| 0 <= i < |heals| && heals[i] == h && SilentNext(heals, i, answers, reader);
        if i < last { assert before[i] == h && SilentNext(before, i, answers, reader); }
      }
    }
  }

  lemma {:induction false} LearnIs(lessons: Lessons, kept: seq<Heal>, key: Param)
    ensures key in Learn(lessons, kept) <==> key in lessons || exists i :: 0 <= i < |kept| && kept[i].key == key
    ensures key in Learn(lessons, kept) && (key !in lessons || Learn(lessons, kept)[key] != lessons[key]) ==>
      Heal(key, Learn(lessons, kept)[key]) in kept
  {
    if kept != [] {
      var before, last := kept[..|kept| - 1], kept[|kept| - 1];
      LearnIs(lessons, before, key);
      assert kept == before + [last];
    }
  }

  /** Resending is bounded and asks the same: at most one attempt more than the payload carries healable
      parameters, and every payload sent differs from the first only by dropped optional parameters, with their
      betas, and a renamed `max_tokens`. */
  lemma ResendingIsBounded(first: Body, sent: seq<Body>, heals: seq<Heal>, answers: nat -> Answer, reader: Reader)
    requires IsRun(first, sent, heals, answers, reader)
    ensures |sent| <= Carried(first) + 1
    ensures forall k :: 0 <= k < |sent| ==> AsksTheSame(first, sent[k])
  {
    SentCarriesLess(first, sent, heals, |sent| - 1, answers, reader);
    forall k: nat | k < |sent| ensures AsksTheSame(first, sent[k]) {
      SentAsksTheSame(first, sent, heals, k, answers, reader);
    }
  }

  /** Only what was earned is remembered, and all of it: a lesson that is new was a heal whose very next answer no
      longer named it, of a request that finally succeeded, and every such heal is among the lessons then. */
  lemma RememberedIsEarned(lessons: Lessons, outcome: Answer, heals: seq<Heal>, answers: nat -> Answer, reader: Reader)
    ensures var after := Remembered(lessons, outcome, heals, answers, reader);
            && (after != lessons ==> outcome.Success?)
            && (forall key :: key in after && (key !in lessons || after[key] != lessons[key]) ==>
                  exists i :: 0 <= i < |heals| && heals[i] == Heal(key, after[key])
                      && SilentNext(heals, i, answers, reader))
            && (outcome.Success? ==>
                  forall i :: 0 <= i < |heals| && SilentNext(heals, i, answers, reader) ==> heals[i].key in after)
  {
    var kept := Earned(heals, answers, reader);
    var after := Remembered(lessons, outcome, heals, answers, reader);
    forall key | key in after && (key !in lessons || after[key] != lessons[key])
      ensures exists i :: 0 <= i < |heals| && heals[i] == Heal(key, after[key]) && SilentNext(heals, i, answers, reader)
    {
      LearnIs(lessons, kept, key);
      EarnedIs(heals, answers, reader, Heal(key, after[key]));
    }
    if outcome.Success? {
      forall i | 0 <= i < |heals| && SilentNext(heals, i, answers, reader) ensures heals[i].key in after {
        EarnedIs(heals, answers, reader, heals[i]);
        var j :| 0 <= j < |kept| && kept[j] == heals[i];
        LearnIs(lessons, kept, heals[i].key);
      }
    }
  }

  // ---------------------------------------------------------------------------
  // The objects
  // ---------------------------------------------------------------------------

  class Payload {
    var boxes: seq<Box>
    var markers: seq<Box>
    var betas: Option<seq<Beta>>

    function Contents(): Body
      reads this
    {
      Body(boxes, markers, betas)
    }

    constructor (body: Body)
      ensures Contents() == body
    {
      boxes, markers, betas := body.boxes, body.markers, body.betas;
    }

    /** Edits the payload in place; false when there is nothing to change. */
    method Apply(heal: Heal) returns (changed: bool)
      modifies this
      ensures changed == Change(old(Contents()), heal).Some?
      ensures Contents() == if changed then Change(old(Contents()), heal).value else old(Contents())
    {
      if heal.key == Ttl {
        changed := false;
        for i := 0 to |markers|
          invariant |markers| == |old(markers)| && boxes == old(boxes) && betas == old(betas)
          invariant changed <==> exists j :: 0 <= j < i && Ttl in old(markers)[j]
          invariant forall j :: 0 <= j < |markers| ==>
              markers[j] == if j < i then old(markers)[j] - {Ttl} else old(markers)[j]
        {
          changed := changed || Ttl in markers[i];
          markers := markers[i := markers[i] - {Ttl}];
        }
        if changed {
          assert markers == Change(old(Contents()), heal).value.markers;
        } else {
          assert forall j :: 0 <= j < |markers| ==> markers[j] == old(markers)[j];
          assert markers == old(markers);
        }
        return;
      }
      var at := BoxWith(boxes, heal.key);
      if at.None? {
        return false;
      }
      boxes := boxes[at.value := Moved(boxes[at.value], heal)];
      if HasBeta(heal.key) && betas.Some? {
        betas := Some(RemoveFirst(betas.value, BetaFor(heal.key)));
      }
      return true;
    }
  }

  /** The resends of one request, and which of them earned remembering. */
  class Heals {
    var pending: Option<Heal>
    var kept: seq<Heal>

    constructor ()
      ensures pending == None && kept == []
    {
      pending, kept := None, [];
    }

    /** The answer after the last heal: None for a success, else its message. */
    method Judge(message: Option<string>, reader: Reader)
      modifies this
      ensures pending == None
      ensures kept == old(kept) +
        if old(pending).Some? && (message.None? || reader.position(old(pending).value.key, message.value).None?)
        then [old(pending).value] else []
    {
      if pending.Some? {
        if message.None? || reader.position(pending.value.key, message.value).None? {
          kept := kept + [pending.value];
        }
        pending := None;
      }
    }

    /** True when the payload was changed and should be sent again. */
    method Recover(answer: Answer, payload: Payload, reader: Reader) returns (again: bool)
      requires answer.Status?
      modifies this, payload
      ensures again == Recovered(old(payload.Contents()), answer, reader).Some?
      ensures if again
              then pending.Some? && Recovered(old(payload.Contents()), answer, reader)
                  == Some((pending.value, payload.Contents()))
              else payload.Contents() == old(payload.Contents()) && pending == None
      ensures kept == old(kept) +
        if old(pending).Some? && Silent(old(pending).value, answer, reader) then [old(pending).value] else []
    {
      if answer.code !in {400, 422} {
        Judge(Some(""), reader);
        return false;
      }
      Judge(Some(answer.message), reader);
      var key := ToHeal(payload.Contents(), answer, reader);
      if key.None? {
        return false;
      }
      var heal := Heal(key.value, RenameOf(key.value));
      again := payload.Apply(heal);
      if again {
        pending := Some(heal);
      }
    }
  }

  lemma AppliedAsksTheSame(first: Body, before: Body, heal: Heal, after: Body)
    requires AsksTheSame(first, before) && heal.key in ORDER && heal.instead == RenameOf(heal.key)
    requires after == if Change(before, heal).Some? then Change(before, heal).value else before
    ensures AsksTheSame(first, after)
  {
    if Change(before, heal).Some? {
      ChangeAsksTheSame(before, heal);
      SameTwice(first, before, after);
    }
  }

  /** A heal applied before any error: the payload stays as it is when there is nothing to change. */
  function Healed(b: Body, heal: Heal): Body {
    match Change(b, heal) case Some(next) => next case None => b
  }

  /** Lessons applied one after the other. */
  function Prepared(b: Body, order: seq<Param>, lessons: Lessons): Body
    requires forall k :: 0 <= k < |order| ==> order[k] in lessons
  {
    if order == [] then b
    else
      var key := order[|order| - 1];
      Healed(Prepared(b, order[..|order| - 1], lessons), Heal(key, lessons[key]))
  }

  lemma PreparedMore(b: Body, order: seq<Param>, key: Param, lessons: Lessons)
    requires key in lessons && forall k :: 0 <= k < |order| ==> order[k] in lessons
    ensures Prepared(b, order + [key], lessons) == Healed(Prepared(b, order, lessons), Heal(key, lessons[key]))
  {
    assert (order + [key])[..|order|] == order;
  }

  /** How many containers carry `key`. */
  ghost function Copies(boxes: seq<Box>, key: Param): nat {
    if boxes == [] then 0 else (if key in boxes[0] then 1 else 0) + Copies(boxes[1..], key)
  }

  lemma {:induction false} CopiesUpdate(boxes: seq<Box>, i: nat, box: Box, key: Param)
    requires i < |boxes|
    ensures Copies(boxes[i := box], key)
      == Copies(boxes, key) - (if key in boxes[i] then 1 else 0) + (if key in box then 1 else 0)
  {
    if i == 0 {
      assert boxes[0 := box][1..] == boxes[1..];
    } else {
      assert boxes[i := box][1..] == boxes[1..][i - 1 := box];
      CopiesUpdate(boxes[1..], i - 1, box, key);
    }
  }

  lemma {:induction false} NoCopies(boxes: seq<Box>, key: Param)
    requires forall i :: 0 <= i < |boxes| ==> key !in boxes[i]
    ensures Copies(boxes, key) == 0
  {
    if boxes != [] {
      assert forall i :: 0 <= i < |boxes| - 1 ==> boxes[1..][i] == boxes[i + 1];
      NoCopies(boxes[1..], key);
    }
  }

  /** What applying lessons leaves of each: of the parameters in containers one copy goes, of the cache markers'
      all. */
  ghost predicate TakesOneEach(b: Body, order: seq<Param>, after: Body) {
    && (forall key :: key in ORDER && key != Ttl ==>
          Copies(after.boxes, key) == Copies(b.boxes, key) - if key in order && Copies(b.boxes, key) > 0 then 1 else 0)
    && (InMarkers(after) <==> InMarkers(b) && Ttl !in order)
  }

  lemma MovedKeys(box: Box, heal: Heal, key: Param)
    requires heal.key in box && heal.key != key && heal.instead != Some(key)
    ensures key in Moved(box, heal) <==> key in box
  {
  }

  lemma MovedKey(box: Box, heal: Heal)
    requires heal.key in box && heal.instead != Some(heal.key)
    ensures heal.key !in Moved(box, heal)
  {
  }

  lemma HealedCopies(b: Body, heal: Heal, key: Param)
    requires heal.instead != Some(key) && heal.instead != Some(heal.key) && key != Ttl
    ensures Copies(Healed(b, heal).boxes, key)
      == Copies(b.boxes, key) - if key == heal.key && Copies(b.boxes, key) > 0 then 1 else 0
  {
    var at := BoxWith(b.boxes, heal.key);
    if heal.key == Ttl {
      assert Healed(b, heal).boxes == b.boxes;
    } else if at.None? {
      NoCopies(b.boxes, heal.key);
    } else {
      var box := b.boxes[at.value];
      CopiesUpdate(b.boxes, at.value, Moved(box, heal), key);
      if key == heal.key { MovedKey(box, heal); } else { MovedKeys(box, heal, key); }
    }
  }

  lemma HealedMarkers(b: Body, heal: Heal)
    ensures InMarkers(Healed(b, heal)) <==> InMarkers(b) && heal.key != Ttl
  {
    var after := Healed(b, heal).markers;
    if heal.key == Ttl && InMarkers(b) {
      assert forall i :: 0 <= i < |after| ==> Ttl !in after[i];
    }
  }

  /** Preparing a payload takes out exactly one copy of every learned parameter it carries: a parameter that stood
      in two containers is still sent. */
  lemma {:induction false} PreparingTakesOneEach(b: Body, order: seq<Param>, lessons: Lessons)
    requires GoodLessons(lessons) && Distinct(order) && forall k :: 0 <= k < |order| ==> order[k] in lessons
    ensures TakesOneEach(b, order, Prepared(b, order, lessons))
  {
    if order != [] {
      var init, last := order[..|order| - 1], order[|order| - 1];
      assert order == init + [last];
      var before, heal := Prepared(b, init, lessons), Heal(last, lessons[last]);
      PreparingTakesOneEach(b, init, lessons);
      assert last !in init;
      OneMoreTaken(b, init, before, heal);
    }
  }

  ghost predicate StillSent(b: Body, key: Param) {
    if key == Ttl then InMarkers(b) else Copies(b.boxes, key) > 0
  }

  /** After preparing nothing that was refused is sent again, exactly when none of it stands in two containers. */
  lemma NothingRefusedIsSentIff(b: Body, order: seq<Param>, lessons: Lessons)
    requires GoodLessons(lessons) && Distinct(order) && forall key :: key in order <==> key in lessons
    ensures (forall key :: key in lessons ==> !StillSent(Prepared(b, order, lessons), key))
      <==> forall key :: key in lessons && key != Ttl ==> Copies(b.boxes, key) <= 1
  {
    var after := Prepared(b, order, lessons);
    PreparingTakesOneEach(b, order, lessons);
    forall key | key in lessons && key != Ttl ensures StillSent(after, key) <==> Copies(b.boxes, key) > 1 {
      assert key in ORDER;
    }
    assert Ttl in lessons ==> !StillSent(after, Ttl);
  }

  lemma OneMoreTaken(b: Body, init: seq<Param>, before: Body, heal: Heal)
    requires heal.key in ORDER && heal.instead == RenameOf(heal.key) && heal.key !in init
        && TakesOneEach(b, init, before)
    ensures TakesOneEach(b, init + [heal.key], Healed(before, heal))
  {
    var order := init + [heal.key];
    forall key | key in ORDER && key != Ttl
      ensures Copies(Healed(before, heal).boxes, key)
        == Copies(b.boxes, key) - if key in order && Copies(b.boxes, key) > 0 then 1 else 0
    {
      assert heal.instead != Some(key) && heal.instead != Some(heal.key);
      HealedCopies(before, heal, key);
    }
    HealedMarkers(before, heal);
  }

  /** What each endpoint and model is known to refuse, in this process. */
  class Memory {
    var learned: map<string, Lessons>

    constructor ()
      ensures learned == map[]
    {
      learned := map[];
    }

    ghost predicate Valid()
      reads this
    {
      forall fp :: fp in learned ==> GoodLessons(learned[fp])
    }

    function Of(fingerprint: string): Lessons
      reads this
    {
      if fingerprint in learned then learned[fingerprint] else map[]
    }

    /** Applies what the endpoint already refused, before the first send, each lesson once. */
    method Prepare(fingerprint: string, payload: Payload)
      requires Valid()
      modifies payload
      ensures StartsFrom(old(payload.Contents()), Of(fingerprint), payload.Contents())
      ensures AsksTheSame(old(payload.Contents()), payload.Contents())
    {
      ghost var first := payload.Contents();
      SameAsItself(first);
      var lessons := Of(fingerprint);
      var keys := lessons.Keys;
      ghost var order: seq<Param> := [];
      while keys != {}
        invariant keys <= lessons.Keys && lessons == Of(fingerprint) && Valid()
        invariant Distinct(order) && forall key :: key in order <==> key in lessons && key !in keys
        invariant forall k :: 0 <= k < |order| ==> order[k] in lessons
        invariant payload.Contents() == Prepared(first, order, lessons)
        invariant AsksTheSame(first, payload.Contents())
        decreases |keys|
      {
        var key :| key in keys;
        keys := keys - {key};
        ApplyLesson(payload, Heal(key, lessons[key]), first);
        PreparedMore(first, order, key, lessons);
        order := order + [key];
      }
      PreparingTakesOneEach(first, order, lessons);
      assert Enumerates(order, lessons);
    }

    static method ApplyLesson(payload: Payload, heal: Heal, ghost first: Body)
      requires heal.key in ORDER && heal.instead == RenameOf(heal.key)
      requires AsksTheSame(first, payload.Contents())
      modifies payload
      ensures payload.Contents() == Healed(old(payload.Contents()), heal)
      ensures AsksTheSame(first, payload.Contents())
    {
      ghost var before := payload.Contents();
      var _ := payload.Apply(heal);
      AppliedAsksTheSame(first, before, heal, payload.Contents());
    }

    method Settle(fingerprint: string, heals: Heals, reader: Reader)
      modifies this, heals
      ensures var kept := old(heals.kept) + if old(heals.pending).Some? then [old(heals.pending).value] else [];
              learned == if kept == [] then old(learned)
                  else old(learned)[fingerprint := Learn(old(Of(fingerprint)), kept)]
    {
      heals.Judge(None, reader);
      if heals.kept != [] {
        var lessons := Of(fingerprint);
        for i := 0 to |heals.kept|
          invariant lessons == Learn(old(Of(fingerprint)), heals.kept[..i])
          invariant heals.kept == old(heals.kept) + if old(heals.pending).Some? then [old(heals.pending).value] else []
          invariant learned == old(learned)
        {
          assert heals.kept[..i + 1][..i] == heals.kept[..i];
          lessons := lessons[heals.kept[i].key := heals.kept[i].instead];
        }
        assert heals.kept[..|heals.kept|] == heals.kept;
        learned := learned[fingerprint := lessons];
        heals.kept := [];
      }
    }
  }

  /** Sends until an answer heals nothing; a success leaves the last heal to be judged. */
  method Attempt(payload: Payload, answers: nat -> Answer, reader: Reader)
    returns (outcome: Answer, attempts: nat, heals: Heals, ghost sent: seq<Body>, ghost healed: seq<Heal>)
    modifies payload
    ensures IsRun(old(payload.Contents()), sent, healed, answers, reader) && IsOver(sent, answers, reader)
    ensures attempts == |sent| && outcome == answers(attempts - 1) && payload.Contents() == sent[|sent| - 1]
    ensures fresh(heals) && (outcome.Success? ==> JudgedSoFar(heals.pending, heals.kept, healed, answers, reader))
  {
    ghost var first := payload.Contents();
    sent, healed := [first], [];
    heals := new Heals();
    attempts := 0;
    while true
      invariant IsRun(first, sent, healed, answers, reader)
      invariant attempts == |healed| && sent[|sent| - 1] == payload.Contents()
      invariant JudgedSoFar(heals.pending, heals.kept, healed, answers, reader)
      decreases Carried(payload.Contents())
    {
      outcome := answers(attempts);
      attempts := attempts + 1;
      if outcome.Success? {
        return;
      }
      ghost var before, pending, kept := payload.Contents(), heals.pending, heals.kept;
      var again := heals.Recover(outcome, payload, reader);
      if !again {
        return;
      }
      RecoveredCarriesLess(before, outcome, reader);
      RunGoesOn(first, sent, healed, answers, reader, heals.pending.value, payload.Contents());
      JudgedGoesOn(pending, kept, healed, answers, reader, heals.pending.value);
      healed := healed + [heals.pending.value];
      sent := sent + [payload.Contents()];
    }
  }

  ghost predicate Enumerates(order: seq<Param>, lessons: Lessons) {
    Distinct(order) && forall key :: key in order <==> key in lessons
  }

  /** `first` is the payload with one copy of every learned parameter taken out. */
  ghost predicate StartsFrom(b: Body, lessons: Lessons, first: Body) {
    exists order :: Enumerates(order, lessons) && TakesOneEach(b, order, first)
  }

  /** One request: `answers(n)` is what attempt `n` is answered. */
  method Send(memory: Memory, fingerprint: string, payload: Payload, answers: nat -> Answer, reader: Reader)
    returns (outcome: Answer, attempts: nat, ghost first: Body, ghost sent: seq<Body>, ghost healed: seq<Heal>)
    requires memory.Valid()
    modifies memory, payload
    ensures AsksTheSame(old(payload.Contents()), first)
        && StartsFrom(old(payload.Contents()), old(memory.Of(fingerprint)), first)
    ensures IsRun(first, sent, healed, answers, reader) && IsOver(sent, answers, reader)
    ensures memory.Valid()
    ensures attempts == |sent| && outcome == answers(attempts - 1)
    ensures var after := Remembered(old(memory.Of(fingerprint)), outcome, healed, answers, reader);
            memory.Of(fingerprint) == after && forall fp :: fp != fingerprint ==> memory.Of(fp) == old(memory.Of(fp))
  {
    memory.Prepare(fingerprint, payload);
    first := payload.Contents();
    var heals;
    outcome, attempts, heals, sent, healed := Attempt(payload, answers, reader);
    if outcome.Success? {
      SettleRun(memory, fingerprint, heals, first, sent, healed, answers, reader);
    }
  }

  /** What a successful request leaves in memory: what its run earned. */
  method SettleRun(memory: Memory, fingerprint: string, heals: Heals, ghost first: Body, ghost sent: seq<Body>,
                   ghost healed: seq<Heal>, ghost answers: nat -> Answer, reader: Reader)
    requires memory.Valid() && IsRun(first, sent, healed, answers, reader) && answers(|healed|).Success?
    requires JudgedSoFar(heals.pending, heals.kept, healed, answers, reader)
    modifies memory, heals
    ensures memory.Valid()
    ensures memory.Of(fingerprint) == Learn(old(memory.Of(fingerprint)), Earned(healed, answers, reader))
    ensures forall fp :: fp != fingerprint ==> memory.Of(fp) == old(memory.Of(fp))
  {
    JudgedOnSuccess(heals.pending, heals.kept, healed, answers, reader);
    LessonsAreHeals(memory.Of(fingerprint), first, sent, healed, answers, reader);
    memory.Settle(fingerprint, heals, reader);
  }

  ghost predicate GoodLessons(lessons: Lessons) {
    forall key :: key in lessons ==> key in ORDER && lessons[key] == RenameOf(key)
  }

  lemma LessonsAreHeals(lessons: Lessons, first: Body, sent: seq<Body>, healed: seq<Heal>, answers: nat -> Answer,
                        reader: Reader)
    requires GoodLessons(lessons) && IsRun(first, sent, healed, answers, reader)
    ensures GoodLessons(Learn(lessons, Earned(healed, answers, reader)))
  {
    var kept := Earned(healed, answers, reader);
    forall key | key in Learn(lessons, kept) ensures key in ORDER && Learn(lessons, kept)[key] == RenameOf(key) {
      LearnIs(lessons, kept, key);
      var h := Heal(key, Learn(lessons, kept)[key]);
      if h in kept {
        EarnedIs(healed, answers, reader, h);
        var i :| 0 <= i < |healed| && healed[i] == h && SilentNext(healed, i, answers, reader);
        assert HealedAfter(sent, healed, i, answers, reader);
        RecoveredCarriesLess(sent[i], answers(i), reader);
      }
    }
  }

  /** All heals but the last are judged, and the last is pending. */
  ghost predicate JudgedSoFar(pending: Option<Heal>, kept: seq<Heal>, healed: seq<Heal>, answers: nat -> Answer,
                              reader: Reader) {
    if healed == [] then pending == None && kept == []
    else pending == Some(healed[|healed| - 1]) && kept == Earned(healed[..|healed| - 1], answers, reader)
  }

  lemma JudgedGoesOn(pending: Option<Heal>, kept: seq<Heal>, healed: seq<Heal>, answers: nat -> Answer, reader: Reader,
                     heal: Heal)
    requires JudgedSoFar(pending, kept, healed, answers, reader)
    ensures var silent := pending.Some? && Silent(pending.value, answers(|healed|), reader);
      var judged := kept + if silent then [pending.value] else [];
            JudgedSoFar(Some(heal), judged, healed + [heal], answers, reader)
  {
    assert (healed + [heal])[..|healed|] == healed;
  }

  lemma JudgedOnSuccess(pending: Option<Heal>, kept: seq<Heal>, healed: seq<Heal>, answers: nat -> Answer,
                        reader: Reader)
    requires JudgedSoFar(pending, kept, healed, answers, reader) && answers(|healed|).Success?
    ensures kept + (if pending.Some? then [pending.value] else []) == Earned(healed, answers, reader)
  {
  }

  lemma RunGoesOn(first: Body, sent: seq<Body>, healed: seq<Heal>, answers: nat -> Answer, reader: Reader, heal: Heal,
                  next: Body)
    requires IsRun(first, sent, healed, answers, reader)
    requires answers(|healed|).Status? && Recovered(sent[|healed|], answers(|healed|), reader) == Some((heal, next))
    ensures IsRun(first, sent + [next], healed + [heal], answers, reader)
  {
    var sent', healed' := sent + [next], healed + [heal];
    forall i | 0 <= i < |healed'| ensures HealedAfter(sent', healed', i, answers, reader) {
      if i < |healed| { assert HealedAfter(sent, healed, i, answers, reader); }
    }
  }
}
