/**
 * The browser terminal (`Terminal` in `frontend/src/components/terminal.js`):
 * four handlers, registered once when the component mounts, act on the
 * terminal's text and send requests back to the server.  The upload
 * context that delivers the events and carries the sends is not part of
 * this model; each delivered event is one call to `Receive`.
 */
module Terminal {
  /** The server messages the terminal listens for. */
  datatype Event =
    | Stdout(data: string)
    | Compiled
    | Status
    | CompileError(rendered: string)

  /** The only request the terminal sends: `send("RunOp", undefined)`. */
  const RUN_OP := "RunOp"

  /** The terminal's text and the names of the messages it has sent, oldest first. */
  datatype View = View(content: string, sent: seq<string>)

  /** Whether the handler for `e` sends `RunOp`. */
  predicate SendsRunOp(e: Event)
  {
    e.Compiled? || e.Status?
  }

  /** Whether the handler for `e` replaces the text instead of extending or keeping it. */
  predicate Resets(e: Event)
  {
    e.Compiled? || e.CompileError?
  }

  /** The text a resetting event leaves. */
  function ResetText(e: Event): string
    requires Resets(e)
  {
    if e.Compiled? then "" else e.rendered
  }

  /** The handler table: one event's effect on the view. */
  function Handle(v: View, e: Event): (w: View)
    ensures SendsRunOp(e) ==> w.sent == v.sent + [RUN_OP]
    ensures !SendsRunOp(e) ==> w.sent == v.sent
    ensures Resets(e) ==> w.content == ResetText(e)
    ensures e.Stdout? ==> w.content == v.content + e.data
    ensures e.Status? ==> w.content == v.content
  {
    match e
    case Stdout(data) => v.(content := v.content + data)
    case Compiled => View("", v.sent + [RUN_OP])
    case Status => v.(sent := v.sent + [RUN_OP])
    case CompileError(rendered) => v.(content := rendered)
  }

  /** The view after a sequence of events, handled in order. */
  function Replay(v: View, es: seq<Event>): View
    decreases |es|
  {
    if es == [] then v else Handle(Replay(v, es[..|es| - 1]), es[|es| - 1])
  }

  /** The data of the `Stdout` events, concatenated in order. */
  function StdoutText(es: seq<Event>): string
    decreases |es|
  {
    if es == [] then ""
    else StdoutText(es[..|es| - 1]) + (if es[|es| - 1].Stdout? then es[|es| - 1].data else "")
  }

  /** How many of the events send `RunOp`. */
  function RunOpCount(es: seq<Event>): nat
    decreases |es|
  {
    if es == [] then 0 else RunOpCount(es[..|es| - 1]) + (if SendsRunOp(es[|es| - 1]) then 1 else 0)
  }

  predicate NoReset(es: seq<Event>)
  {
    forall i :: 0 <= i < |es| ==> !Resets(es[i])
  }

  /** With no reset among the events, the text only grows, by the `Stdout` data in order. */
  lemma {:induction false} ContentWithoutReset(v: View, es: seq<Event>)
    requires NoReset(es)
    ensures Replay(v, es).content == v.content + StdoutText(es)
    decreases |es|
  {
    if es != [] {
      var init := es[..|es| - 1];
      assert NoReset(init) by {
        forall i | 0 <= i < |init| ensures !Resets(init[i]) {
          assert init[i] == es[i];
        }
      }
      ContentWithoutReset(v, init);
      assert !Resets(es[|es| - 1]);
    }
  }

  /**
   * The text is what the last reset left, followed by the `Stdout` data that
   * came after it: no earlier event matters.
   */
  lemma {:induction false} ContentSinceReset(v: View, es: seq<Event>, k: nat)
    requires k < |es| && Resets(es[k]) && NoReset(es[k + 1..])
    ensures Replay(v, es).content == ResetText(es[k]) + StdoutText(es[k + 1..])
    decreases |es|
  {
    var init := es[..|es| - 1];
    if k == |es| - 1 {
      assert es[k + 1..] == [];
    } else {
      assert init[k] == es[k];
      var mid := init[k + 1..];
      assert NoReset(mid) by {
        forall i | 0 <= i < |mid| ensures !Resets(mid[i]) {
          assert mid[i] == es[k + 1..][i];
        }
      }
      ContentSinceReset(v, init, k);
      var tail := es[k + 1..];
      assert tail[..|tail| - 1] == init[k + 1..];
      assert tail[|tail| - 1] == es[|es| - 1];
      assert !Resets(tail[|tail| - 1]);
    }
  }

  /** Every `Compiled` and every `Status` sends exactly one `RunOp`, after what was sent before. */
  lemma {:induction false} SendsCounted(v: View, es: seq<Event>)
    ensures var w := Replay(v, es);
            |w.sent| == |v.sent| + RunOpCount(es) && w.sent[..|v.sent|] == v.sent
            && forall i :: |v.sent| <= i < |w.sent| ==> w.sent[i] == RUN_OP
    decreases |es|
  {
    if es != [] {
      SendsCounted(v, es[..|es| - 1]);
    }
  }

  /** No handler is gated on earlier events: `Stdout` after `CompileError` appends to the rendered error. */
  lemma StdoutAfterCompileError(v: View, rendered: string, data: string)
    ensures Replay(v, [CompileError(rendered), Stdout(data)]).content == rendered + data
  {
    assert [CompileError(rendered), Stdout(data)][..1] == [CompileError(rendered)];
    assert [CompileError(rendered)][..0] == [];
  }

  /** The mounted component: its `content` state and the requests it has sent. */
  class TerminalView {
    var content: string
    var sent: seq<string>

    function Current(): View
      reads this
    {
      View(content, sent)
    }

    /** Mounting: empty text, nothing sent, the four handlers registered. */
    constructor ()
      ensures content == "" && sent == []
    {
      content, sent := "", [];
    }

    /** The `Stdout` handler: `setContent(c => c + data)`. */
    method OnStdout(data: string)
      modifies this
      ensures Current() == Handle(old(Current()), Stdout(data))
    {
      content := content + data;
    }

    /** The `Compiled` handler: request a run, then clear the text. */
    method OnCompiled()
      modifies this
      ensures Current() == Handle(old(Current()), Compiled)
    {
      sent := sent + [RUN_OP];
      content := "";
    }

    /** The `Status` handler: request the next run step. */
    method OnStatus()
      modifies this
      ensures Current() == Handle(old(Current()), Status)
    {
      sent := sent + [RUN_OP];
    }

    /** The `CompileError` handler: show the rendered diagnostics. */
    method OnCompileError(rendered: string)
      modifies this
      ensures Current() == Handle(old(Current()), CompileError(rendered))
    {
      content := rendered;
    }

    /** Delivery of one event to the handler registered for it. */
    method Receive(e: Event)
      modifies this
      ensures Current() == Handle(old(Current()), e)
    {
      match e
      case Stdout(data) => OnStdout(data);
      case Compiled => OnCompiled();
      case Status => OnStatus();
      case CompileError(rendered) => OnCompileError(rendered);
    }
  }
}
