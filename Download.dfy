/**
 * The download confirmation (SilkBrowser.on_download_requested). The two dialogs are
 * inputs: the answer to the yes/no confirmation and the path the save dialog returns
 * (the empty string when the user dismisses it). The handler's effect is the list of
 * commands it issues to the engine's download item, in order.
 *
 * Every tab's engine shares the default profile, and each new tab connects the handler
 * to that profile's download signal once more, so one download request runs the handler
 * once per connection, each run with answers of its own (HandleAll).
 */
module Download {

  /** Answer of the confirmation box; dismissing it yields the default, No. */
  datatype Reply = Yes | No

  /** What the user answered in one run of the handler: the confirmation, then the save path. */
  datatype Answer = Answer(reply: Reply, savePath: string)

  /** A command issued to the engine's download item. */
  datatype Command = SetPath(path: string) | Accept | Cancel

  /** The commands one run of the handler issues for a reply and the path the save dialog returned. */
  function Decide(reply: Reply, savePath: string): (cmds: seq<Command>)
    ensures Cancel in cmds <==> reply != Yes
    ensures Accept in cmds <==> reply == Yes && savePath != ""
    ensures cmds == [SetPath(savePath), Accept] <==> reply == Yes && savePath != ""
    ensures reply != Yes ==> cmds == [Cancel]
    ensures !(Accept in cmds && Cancel in cmds)
    ensures reply == Yes && savePath == "" ==> cmds == []
    ensures forall p :: SetPath(p) in cmds ==> p == savePath && p != ""
  {
    if reply == Yes then
      if savePath != "" then [SetPath(savePath), Accept] else []
    else
      [Cancel]
  }

  /** Commands of successive handler runs, one per answer, in the order the runs happen. */
  function HandleAll(answers: seq<Answer>): seq<Command>
    decreases |answers|
  {
    if answers == [] then []
    else
      var last := answers[|answers| - 1];
      HandleAll(answers[..|answers| - 1]) + Decide(last.reply, last.savePath)
  }

  /** Where the engine's download item stands; Accepted means accepted and under way. */
  datatype Status = Requested | Accepted | Cancelled

  /** The engine's download item as far as the handler can change it. */
  datatype Item = Item(path: string, status: Status)

  /**
   * Effect of one command on the download item, as the engine applies it: the path can
   * be set and the download accepted only while it is still requested; cancelling stops
   * a requested or an accepted download.
   */
  function Step(item: Item, cmd: Command): Item {
    match cmd
    case SetPath(p) => if item.status == Requested then item.(path := p) else item
    case Accept => if item.status == Requested then item.(status := Accepted) else item
    case Cancel => item.(status := Cancelled)
  }

  /** Effect of a list of commands, applied in order. */
  function Run(item: Item, cmds: seq<Command>): Item
    decreases |cmds|
  {
    if cmds == [] then item else Run(Step(item, cmds[0]), cmds[1..])
  }

  /** Running two command lists one after the other is running their concatenation. */
  lemma {:induction false} RunAppend(item: Item, a: seq<Command>, b: seq<Command>)
    ensures Run(item, a + b) == Run(Run(item, a), b)
    decreases |a|
  {
    if a == [] {
      assert a + b == b;
    } else {
      assert (a + b)[1..] == a[1..] + b;
      RunAppend(Step(item, a[0]), a[1..], b);
    }
  }

  /** Effect of one handler run on an item in any state. */
  lemma DecideStep(item: Item, reply: Reply, savePath: string)
    ensures var next := Run(item, Decide(reply, savePath));
      (reply == No ==> next == item.(status := Cancelled)) &&
      (reply == Yes && savePath != "" && item.status == Requested ==> next == Item(savePath, Accepted)) &&
      (reply == Yes && (savePath == "" || item.status != Requested) ==> next == item)
  {
    if reply == No {
      assert Run(item, [Cancel]) == Run(item.(status := Cancelled), []);
    } else if savePath != "" {
      var cmds := Decide(reply, savePath);
      assert cmds[1..] == [Accept];
      assert Run(item, cmds) == Run(Step(item, SetPath(savePath)), [Accept]);
    }
  }

  /**
   * Outcome of a request that the engine offers with its suggested path and for which the
   * handler runs once: the download is accepted at the chosen path exactly when the user
   * confirmed and chose a path, cancelled exactly when the user did not confirm, and
   * otherwise left undecided at its suggested path.
   */
  lemma DecideOutcome(suggested: string, reply: Reply, savePath: string)
    ensures var final := Run(Item(suggested, Requested), Decide(reply, savePath));
      (final.status == Accepted <==> reply == Yes && savePath != "") &&
      (final.status == Accepted ==> final.path == savePath) &&
      (final.status == Cancelled <==> reply == No) &&
      (final.status == Cancelled ==> final.path == suggested) &&
      (final.status == Requested ==> final.path == suggested)
  {
    DecideStep(Item(suggested, Requested), reply, savePath);
  }

  /** Some run of the handler got the answer No. */
  predicate SomeNo(answers: seq<Answer>) {
    exists i :: 0 <= i < |answers| && answers[i].reply == No
  }

  /** Run `i` of the handler is one in which the user confirmed and chose a path. */
  predicate Chosen(answers: seq<Answer>, i: int) {
    0 <= i < |answers| && answers[i].reply == Yes && answers[i].savePath != ""
  }

  /** Run `i` of the handler is the first one in which the user confirmed and chose a path. */
  predicate FirstChosen(answers: seq<Answer>, i: int) {
    Chosen(answers, i) && forall j :: 0 <= j < i ==> !Chosen(answers, j)
  }

  /** The item after all runs but the last, and the last run's effect on it. */
  lemma HandleAllLast(item: Item, answers: seq<Answer>)
    requires answers != []
    ensures var last := answers[|answers| - 1];
      Run(item, HandleAll(answers)) ==
        Run(Run(item, HandleAll(answers[..|answers| - 1])), Decide(last.reply, last.savePath))
  {
    var last := answers[|answers| - 1];
    RunAppend(item, HandleAll(answers[..|answers| - 1]), Decide(last.reply, last.savePath));
  }

  /** How the two predicates on answers extend by one more run. */
  lemma AnswersLast(answers: seq<Answer>)
    requires answers != []
    ensures var n := |answers| - 1;
      (SomeNo(answers) <==> SomeNo(answers[..n]) || answers[n].reply == No) &&
      (forall i :: FirstChosen(answers[..n], i) ==> FirstChosen(answers, i)) &&
      ((forall i :: 0 <= i < n ==> !Chosen(answers[..n], i)) && Chosen(answers, n) ==> FirstChosen(answers, n))
  {
    var n := |answers| - 1;
    var init := answers[..n];
    assert forall i :: 0 <= i < n ==> init[i] == answers[i];
    forall j | 0 <= j < n ensures Chosen(init, j) <==> Chosen(answers, j) {
    }
    forall i | FirstChosen(init, i) ensures FirstChosen(answers, i) {
      forall j | 0 <= j < i ensures !Chosen(answers, j) {
        assert !Chosen(init, j);
      }
    }
  }

  /**
   * Outcome of a request for which the handler runs once per answer: it ends cancelled
   * exactly when some run got No; accepted exactly when no run got No and some run got a
   * path, and then at the path of the first such run; otherwise it stays undecided at the
   * suggested path.
   */
  lemma {:induction false} HandleAllOutcome(suggested: string, answers: seq<Answer>)
    ensures var final := Run(Item(suggested, Requested), HandleAll(answers));
      (final.status == Cancelled <==> SomeNo(answers)) &&
      (final.status == Accepted <==> !SomeNo(answers) && exists i :: Chosen(answers, i)) &&
      (final.status == Accepted ==> exists i :: FirstChosen(answers, i) && final.path == answers[i].savePath) &&
      (final.status == Requested ==> final.path == suggested)
    decreases |answers|
  {
    if answers != [] {
      var n := |answers| - 1;
      var init, last := answers[..n], answers[n];
      var start := Item(suggested, Requested);
      HandleAllOutcome(suggested, init);
      HandleAllLast(start, answers);
      AnswersLast(answers);
      var mid := Run(start, HandleAll(init));
      DecideStep(mid, last.reply, last.savePath);
      assert (exists i :: Chosen(answers, i)) <==> (exists i :: Chosen(init, i)) || Chosen(answers, n) by {
        if exists i :: Chosen(answers, i) {
          var i :| Chosen(answers, i);
          if i < n { assert Chosen(init, i); }
        }
        if exists i :: Chosen(init, i) {
          var i :| Chosen(init, i);
          assert Chosen(answers, i);
        }
      }
    }
  }

  /**
   * With two tabs open, a user who confirms and picks a path in the first prompt and
   * answers No in the second gets the download accepted and then cancelled.
   */
  lemma YesThenNoCancelsAccepted(suggested: string, path: string, other: string)
    requires path != ""
    ensures var answers := [Answer(Yes, path), Answer(No, other)];
      Run(Item(suggested, Requested), HandleAll(answers)) == Item(path, Cancelled)
  {
    var answers := [Answer(Yes, path), Answer(No, other)];
    var start := Item(suggested, Requested);
    assert answers[..1] == [Answer(Yes, path)];
    HandleAllLast(start, answers);
    HandleAllLast(start, answers[..1]);
    assert answers[..1][..0] == [];
    DecideStep(start, Yes, path);
    DecideStep(Item(path, Accepted), No, other);
  }
}
