/**
 * One screen's controller together with the network it talks to, driven by
 * a sequence of inputs. The network is an oracle: it answers the pending
 * fetch with whatever result the input says, and only a pending fetch can
 * be answered. The session records every notification and every fetch, so
 * properties of whole runs can be stated.
 */
module Session {
  import opened Wrappers
  import opened Model
  import opened NewsVM
  import Api

  datatype Input =
    | FetchInitial
    | Search(query: string)
    | LoadMore
    | Select(index: int)
    | Respond(result: FetchResult)

  datatype Session = Session(
    vm: State,
    pending: Option<Api.Router>,
    events: seq<Event>,
    issued: seq<Api.Router>,
    answered: nat
  )

  function Start(): (sess: Session) {
    Session(Initial(), None, [], [], 0)
  }

  /** The bookkeeping every reachable session keeps: the loading flag is
      set exactly while a fetch is pending, that fetch is the latest one
      issued, every other fetch has been answered, and the page counter
      never drops below one. */
  predicate Valid(sess: Session) {
    && (sess.vm.isLoading <==> sess.pending.Some?)
    && sess.vm.currentPage >= 1
    && |sess.issued| == sess.answered + (if sess.pending.Some? then 1 else 0)
    && (sess.pending.Some? ==> sess.issued[|sess.issued| - 1] == sess.pending.value)
  }

  /** Runs a controller step: its notifications are recorded, and a fetch
      it starts becomes the pending one. */
  function Take(sess: Session, step: Step): (next: Session) {
    match step.fetch
    case Some(r) => Session(step.state, Some(r), sess.events + step.events, sess.issued + [r], sess.answered)
    case None => sess.(vm := step.state, events := sess.events + step.events)
  }

  /** One input. A response with no fetch pending cannot happen and is
      ignored; a response to the pending fetch completes it. */
  function Apply(sess: Session, input: Input): (next: Session)
    ensures |next.events| >= |sess.events| && next.events[..|sess.events|] == sess.events
    ensures |next.issued| <= |sess.issued| + 1
    ensures |next.issued| == |sess.issued| + 1 ==> !sess.vm.isLoading && next.vm.isLoading
  {
    match input
    case FetchInitial => Take(sess, FetchInitialNews(sess.vm))
    case Search(q) => Take(sess, SearchNews(sess.vm, q))
    case LoadMore => Take(sess, LoadMoreArticles(sess.vm))
    case Select(i) => Take(sess, SelectedArticle(sess.vm, i))
    case Respond(result) =>
      if sess.pending.None? then sess
      else
        var done := Complete(sess.vm, result);
        Session(done.state, None, sess.events + done.events, sess.issued, sess.answered + 1)
  }

  /** Every input keeps the bookkeeping. In particular a fetch is only ever
      issued while none is pending: at most one is in flight. */
  lemma ApplyKeepsValid(sess: Session, input: Input)
    requires Valid(sess)
    ensures Valid(Apply(sess, input))
  {
  }

  function Run(sess: Session, inputs: seq<Input>): (final: Session)
    decreases |inputs|
  {
    if inputs == [] then sess else Run(Apply(sess, inputs[0]), inputs[1..])
  }

  lemma StartIsValid()
    ensures Valid(Start())
  {
  }

  /** Every reachable session is valid. */
  lemma {:induction false} RunKeepsValid(sess: Session, inputs: seq<Input>)
    requires Valid(sess)
    ensures Valid(Run(sess, inputs))
    decreases |inputs|
  {
    if inputs != [] {
      ApplyKeepsValid(sess, inputs[0]);
      RunKeepsValid(Apply(sess, inputs[0]), inputs[1..]);
    }
  }

  /** The notification trace only grows, and each input adds at most one
      fetch. */
  lemma {:induction false} RunExtendsTrace(sess: Session, inputs: seq<Input>)
    ensures |Run(sess, inputs).events| >= |sess.events|
    ensures Run(sess, inputs).events[..|sess.events|] == sess.events
    ensures |Run(sess, inputs).issued| <= |sess.issued| + |inputs|
    decreases |inputs|
  {
    if inputs != [] {
      var next := Apply(sess, inputs[0]);
      RunExtendsTrace(next, inputs[1..]);
      var final := Run(next, inputs[1..]);
      assert final.events[..|sess.events|] == final.events[..|next.events|][..|sess.events|];
    }
  }

  /** Single flight over whole runs: fetches issued never outnumber the
      answers by more than one, and when the loading flag is clear every
      fetch has been answered. */
  lemma AtMostOneInFlight(inputs: seq<Input>)
    ensures var sess := Run(Start(), inputs);
            && |sess.issued| <= sess.answered + 1
            && (!sess.vm.isLoading ==> |sess.issued| == sess.answered)
  {
    StartIsValid();
    RunKeepsValid(Start(), inputs);
  }

  /** Inputs arriving while a fetch is pending issue nothing: searching and
      loading more leave the whole session as it was. */
  lemma BusyInputsAreIgnored(sess: Session, query: string)
    requires Valid(sess) && sess.pending.Some?
    ensures Apply(sess, Search(query)) == sess
    ensures Apply(sess, LoadMore) == sess
  {
  }

  /** A page of `n` placeholder articles. */
  function Placeholders(n: nat): (page: seq<Article>)
    ensures |page| == n
  {
    seq(n, _ => EmptyArticle)
  }

  /** The first screen, two pages by scrolling, then the end: 15, then 3,
      then 0 articles. After the empty page scrolling issues nothing more. */
  lemma PaginationScenario()
    ensures var sess := Run(Start(), [FetchInitial, Respond(Success(Placeholders(15))),
                                      LoadMore, Respond(Success(Placeholders(3))),
                                      LoadMore, Respond(Success([])),
                                      LoadMore]);
            && |sess.vm.articles| == 18
            && !sess.vm.hasMorePages
            && sess.vm.currentPage == 4
            && sess.issued == [Api.News("Apple", 1), Api.News("Apple", 2), Api.News("Apple", 3)]
  {
  }
}
