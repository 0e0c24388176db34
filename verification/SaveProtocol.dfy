/**
 * The editor fixture's saves (server.ts): one page numbers its edits, a network delivers the saves in
 * any order and any number of times, and the server keeps the newest it has seen of each block.
 */
module SaveProtocol {
  import opened Wrappers

  /** A save's sequence number; a save without one counts as the newest. */
  datatype SeqNo = Finite(n: int) | Infinite

  predicate AtLeast(a: SeqNo, b: SeqNo) {
    a.Infinite? || (b.Finite? && a.n >= b.n)
  }

  /** A save request: the block it names, its text and its number, each perhaps missing from the body. */
  datatype Save = Save(block: string, html: Option<string>, number: Option<int>)

  datatype Server = Server(blocks: map<string, string>, lastSeq: map<string, SeqNo>)

  function NumberOf(s: Save): SeqNo {
    match s.number
    case Some(n) => Finite(n)
    case None => Infinite
  }

  function LastOf(s: Server, block: string): SeqNo {
    if block in s.lastSeq then s.lastSeq[block] else Finite(0)
  }

  predicate Accepts(s: Server, save: Save) {
    save.block in s.blocks && save.html.Some?
  }

  /** What the `PUT` handler leaves. */
  function AfterPut(s: Server, save: Save): Server {
    if Accepts(s, save) && AtLeast(NumberOf(save), LastOf(s, save.block)) then
      Server(s.blocks[save.block := save.html.value], s.lastSeq[save.block := NumberOf(save)])
    else s
  }

  /**
   * A save of a known block with a text is stored exactly when it has no number, or none is higher that was stored
   * for the block before, not counting one without a number; every other block is as it was.
   */
  lemma PutExactly(s: Server, save: Save)
    ensures var z := AfterPut(s, save);
            var last := if save.block in s.lastSeq then s.lastSeq[save.block] else Finite(0);
            var stored := save.block in s.blocks && save.html.Some?
                          && (save.number.None? || (last.Finite? && last.n <= save.number.value));
            && (stored ==>
                && z.blocks == s.blocks[save.block := save.html.value]
                && z.lastSeq == s.lastSeq[save.block :=
                     match save.number case Some(n) => Finite(n) case None => Infinite])
            && (!stored ==> z == s)
  {
  }

  /** The handler as it updates the server's two maps. */
  class EditorServer {
    var blocks: map<string, string>
    var lastSeq: map<string, SeqNo>

    ghost function State(): Server
      reads this
    {
      Server(blocks, lastSeq)
    }

    constructor (initial: map<string, string>)
      ensures State() == Server(initial, map[])
    {
      blocks, lastSeq := initial, map[];
    }

    method Put(save: Save) returns (status: int)
      modifies this
      ensures State() == AfterPut(old(State()), save)
      ensures status == if Accepts(old(State()), save) then 200 else 400
    {
      if save.block !in blocks || save.html.None? { return 400; }
      var number := NumberOf(save);
      if AtLeast(number, if save.block in lastSeq then lastSeq[save.block] else Finite(0)) {
        lastSeq := lastSeq[save.block := number];
        blocks := blocks[save.block := save.html.value];
      }
      return 200;
    }
  }

  // ---------- a page, a network and the server ----------

  datatype Edit = Edit(block: string, html: string)

  /** What happens next: the user edits a block, or the network delivers the `k`-th save sent so far. */
  datatype Step = Type(edit: Edit) | Deliver(k: nat)

  /** The page's counter and sent saves, which of them have arrived (in order, with repeats), and the server. */
  datatype World = World(counter: nat, sent: seq<Save>, arrived: seq<nat>, server: Server)

  function Start(initial: map<string, string>): World {
    World(0, [], [], Server(initial, map[]))
  }

  /** The page script: count the edit, send it with the count. */
  function SendEdit(w: World, e: Edit): World {
    w.(counter := w.counter + 1, sent := w.sent + [Save(e.block, Some(e.html), Some(w.counter + 1))])
  }

  function Next(w: World, step: Step): World {
    match step
    case Type(e) => SendEdit(w, e)
    case Deliver(k) =>
      if k < |w.sent| then w.(arrived := w.arrived + [k], server := AfterPut(w.server, w.sent[k])) else w
  }

  function Run(initial: map<string, string>, steps: seq<Step>): World {
    if steps == [] then Start(initial) else Next(Run(initial, steps[..|steps| - 1]), steps[|steps| - 1])
  }

  /** The page shows the server's blocks, so every edit is of one of them. */
  ghost predicate OfPage(initial: map<string, string>, steps: seq<Step>) {
    forall i :: 0 <= i < |steps| && steps[i].Type? ==> steps[i].edit.block in initial
  }

  /** The newest of the saves of `block` in `arrived`: the one sent last. */
  function Newest(sent: seq<Save>, arrived: seq<nat>, block: string): (k: Option<nat>)
    requires forall i :: 0 <= i < |arrived| ==> arrived[i] < |sent|
    ensures k.Some? ==> k.value < |sent| && sent[k.value].block == block
  {
    if arrived == [] then None
    else
      var k := Newest(sent, arrived[..|arrived| - 1], block);
      var last := arrived[|arrived| - 1];
      if sent[last].block == block && (k.None? || last > k.value) then Some(last) else k
  }

  /** It is one of those that arrived, and none of the others is newer. */
  lemma {:induction false} NewestIsMaximum(sent: seq<Save>, arrived: seq<nat>, block: string)
    requires forall i :: 0 <= i < |arrived| ==> arrived[i] < |sent|
    ensures var k := Newest(sent, arrived, block);
            && (k.Some? ==> k.value in arrived)
            && forall i :: 0 <= i < |arrived| && sent[arrived[i]].block == block ==> k.Some? && arrived[i] <= k.value
  {
    if arrived != [] { NewestIsMaximum(sent, arrived[..|arrived| - 1], block); }
  }

  lemma {:induction false} NewestOfMore(sent: seq<Save>, save: Save, arrived: seq<nat>, block: string)
    requires forall i :: 0 <= i < |arrived| ==> arrived[i] < |sent|
    ensures Newest(sent + [save], arrived, block) == Newest(sent, arrived, block)
  {
    if arrived != [] { NewestOfMore(sent, save, arrived[..|arrived| - 1], block); }
  }

  /** The `k`-th save sent carries number `k + 1`, and names a block of the page. */
  ghost predicate Numbered(w: World, initial: map<string, string>) {
    && w.counter == |w.sent|
    && (forall k :: 0 <= k < |w.sent| ==>
        w.sent[k].number == Some(k + 1) && w.sent[k].html.Some? && w.sent[k].block in initial)
    && (forall i :: 0 <= i < |w.arrived| ==> w.arrived[i] < |w.sent|)
    && w.server.blocks.Keys == initial.Keys
  }

  /** A block holds the newest save of it that has arrived, or its first text. */
  ghost predicate HoldsNewest(w: World, initial: map<string, string>, block: string)
    requires Numbered(w, initial) && block in initial
  {
    match Newest(w.sent, w.arrived, block)
    case None => w.server.blocks[block] == initial[block] && LastOf(w.server, block) == Finite(0)
    case Some(k) => w.server.blocks[block] == w.sent[k].html.value && LastOf(w.server, block) == Finite(k + 1)
  }

  ghost predicate Converged(w: World, initial: map<string, string>) {
    Numbered(w, initial) && forall block :: block in initial ==> HoldsNewest(w, initial, block)
  }

  lemma EditBlock(w: World, initial: map<string, string>, e: Edit, block: string)
    requires Numbered(w, initial) && e.block in initial && block in initial && HoldsNewest(w, initial, block)
    ensures Numbered(SendEdit(w, e), initial) && HoldsNewest(SendEdit(w, e), initial, block)
  {
    NewestOfMore(w.sent, SendEdit(w, e).sent[|w.sent|], w.arrived, block);
  }

  lemma EditKeeps(w: World, initial: map<string, string>, e: Edit)
    requires Converged(w, initial) && e.block in initial
    ensures Converged(SendEdit(w, e), initial)
  {
    EditBlock(w, initial, e, e.block);
    forall block | block in initial ensures HoldsNewest(SendEdit(w, e), initial, block) {
      EditBlock(w, initial, e, block);
    }
  }

  lemma DeliverNumbered(w: World, initial: map<string, string>, k: nat)
    requires Numbered(w, initial) && k < |w.sent|
    ensures Numbered(Next(w, Deliver(k)), initial)
  {
  }

  lemma DeliverBlock(w: World, initial: map<string, string>, k: nat, block: string)
    requires Numbered(w, initial) && k < |w.sent| && block in initial && HoldsNewest(w, initial, block)
    requires Numbered(Next(w, Deliver(k)), initial)
    ensures HoldsNewest(Next(w, Deliver(k)), initial, block)
  {
    assert (w.arrived + [k])[..|w.arrived|] == w.arrived;
  }

  lemma DeliverKeeps(w: World, initial: map<string, string>, k: nat)
    requires Converged(w, initial) && k < |w.sent|
    ensures Converged(Next(w, Deliver(k)), initial)
  {
    DeliverNumbered(w, initial, k);
    forall block | block in initial ensures HoldsNewest(Next(w, Deliver(k)), initial, block) {
      DeliverBlock(w, initial, k, block);
    }
  }

  /** In every run, whatever order and repetition the network chose, each block holds its newest arrived save. */
  lemma {:induction false} SavesConverge(initial: map<string, string>, steps: seq<Step>)
    requires OfPage(initial, steps)
    ensures Converged(Run(initial, steps), initial)
  {
    if steps != [] {
      var front, last := steps[..|steps| - 1], steps[|steps| - 1];
      assert forall i :: 0 <= i < |front| ==> front[i] == steps[i];
      SavesConverge(initial, front);
      var w := Run(initial, front);
      match last
      case Type(e) => EditKeeps(w, initial, e);
      case Deliver(k) => if k < |w.sent| { DeliverKeeps(w, initial, k); }
    }
  }

  /** The text the user last typed into a block, or its first text. */
  function LastTyped(initial: string, steps: seq<Step>, block: string): string {
    if steps == [] then initial
    else
      match steps[|steps| - 1]
      case Type(e) => if e.block == block then e.html else LastTyped(initial, steps[..|steps| - 1], block)
      case Deliver(_) => LastTyped(initial, steps[..|steps| - 1], block)
  }

  /** The last save sent for a block, if any. */
  function LastSent(sent: seq<Save>, block: string): (k: Option<nat>)
    ensures k.Some? ==> k.value < |sent| && sent[k.value].block == block
    ensures forall i :: 0 <= i < |sent| && sent[i].block == block ==> k.Some? && i <= k.value
  {
    if sent == [] then None
    else if sent[|sent| - 1].block == block then Some(|sent| - 1)
    else LastSent(sent[..|sent| - 1], block)
  }

  /** It carries the user's last edit of the block. */
  lemma {:induction false} LastSentIsLastTyped(initial: map<string, string>, steps: seq<Step>, block: string)
    requires block in initial
    ensures var w := Run(initial, steps);
            match LastSent(w.sent, block)
            case None => LastTyped(initial[block], steps, block) == initial[block]
            case Some(k) => w.sent[k].html == Some(LastTyped(initial[block], steps, block))
  {
    if steps != [] {
      LastSentIsLastTyped(initial, steps[..|steps| - 1], block);
      var w, z := Run(initial, steps[..|steps| - 1]), Run(initial, steps);
      if steps[|steps| - 1].Type? {
        assert z.sent[..|w.sent|] == w.sent;
      }
    }
  }

  lemma AllArrived(sent: seq<Save>, arrived: seq<nat>, block: string)
    requires forall i :: 0 <= i < |arrived| ==> arrived[i] < |sent|
    requires forall k :: 0 <= k < |sent| && sent[k].block == block ==> k in arrived
    ensures Newest(sent, arrived, block) == LastSent(sent, block)
  {
    NewestIsMaximum(sent, arrived, block);
    var last := LastSent(sent, block);
    if last.Some? {
      var i :| 0 <= i < |arrived| && arrived[i] == last.value;
    }
  }

  /** Once every save of a block has arrived, it holds the user's last edit. */
  lemma AllDelivered(initial: map<string, string>, steps: seq<Step>, block: string)
    requires OfPage(initial, steps) && block in initial
    requires var w := Run(initial, steps);
             forall k :: 0 <= k < |w.sent| && w.sent[k].block == block ==> k in w.arrived
    ensures block in Run(initial, steps).server.blocks
    ensures Run(initial, steps).server.blocks[block] == LastTyped(initial[block], steps, block)
  {
    SavesConverge(initial, steps);
    assert HoldsNewest(Run(initial, steps), initial, block);
    LastSentIsLastTyped(initial, steps, block);
    AllArrived(Run(initial, steps).sent, Run(initial, steps).arrived, block);
  }
}
