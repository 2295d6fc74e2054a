/**
 * The per-frame decision of `run_listener`: which frames of the founding
 * stream become notifications, and with what nation, text and flag. The
 * SSE connection, the reconnect loop and its back-off, and the webhook POST
 * are not modelled; the stream is a finite sequence of frames and the JSON
 * decoder is a parameter.
 */
module Listener {
  import opened Wrappers
  import opened Text
  import opened Markers
  import opened Validator
  import opened Flags

  /** One server-sent event: its `event` field and its `data` payload. */
  datatype Frame = Frame(eventType: string, data: string)

  /** The arguments of one `send_to_discord` call: the nation, the event text and the flag. */
  datatype Notification = Notification(nation: string, display: string, flagUrl: string)

  /**
   * What one frame gives: nothing when it is not a "message", carries no
   * data, does not decode, or fails the forwarding rule; otherwise the
   * notification for the nation the validator accepted.
   */
  function Decide(frame: Frame, decode: string -> Option<Event>, blacklist: seq<string>): Option<Notification>
  {
    if frame.eventType != "message" || frame.data == "" then None
    else match decode(frame.data)
      case None => None
      case Some(event) =>
        if !IsValidEvent(event, blacklist) then None
        else Some(Notification(ExtractTargetName(event["str"]).value, event["str"], ExtractFlagUrl(event)))
  }

  /**
   * A frame yields a notification exactly when it is a non-empty "message"
   * that decodes to an event the forwarding rule accepts; the notification
   * then names a non-empty nation not ending in a digit, the nation its own
   * event text names, and a flag under the flag directory.
   */
  lemma DecideSound(frame: Frame, decode: string -> Option<Event>, blacklist: seq<string>)
    ensures var r := Decide(frame, decode, blacklist);
      && (r.Some? <==> (&& frame.eventType == "message" && frame.data != ""
                        && decode(frame.data).Some? && IsValidEvent(decode(frame.data).value, blacklist)))
      && (r.Some? ==> && r.value.nation != "" && !IsDigit(r.value.nation[|r.value.nation| - 1])
                      && ExtractTargetName(r.value.display) == Some(r.value.nation)
                      && StartsWith(r.value.flagUrl, Origin + FlagDir))
  {
  }

  /** The notifications a run over `frames` sends, in stream order. */
  function Forwarded(frames: seq<Frame>, decode: string -> Option<Event>, blacklist: seq<string>): (r: seq<Notification>)
    ensures |r| <= |frames|
    decreases |frames|
  {
    if |frames| == 0 then []
    else Emitted(Decide(frames[0], decode, blacklist)) + Forwarded(frames[1..], decode, blacklist)
  }

  /** What one decision contributes to the notifications sent. */
  function Emitted(d: Option<Notification>): seq<Notification>
  {
    match d
    case None => []
    case Some(n) => [n]
  }

  /** The body of the `for raw_event in response.events()` loop for one frame, with its three `continue`s. */
  method HandleFrame(frame: Frame, decode: string -> Option<Event>, blacklist: seq<string>)
    returns (out: Option<Notification>)
    ensures out == Decide(frame, decode, blacklist)
  {
    if frame.eventType != "message" || frame.data == "" {
      return None;
    }
    var decoded := decode(frame.data);
    if decoded.None? {
      return None;
    }
    var event := decoded.value;
    var valid := CheckEvent(event, blacklist);
    if !valid {
      return None;
    }
    var nation := ExtractTargetName(event["str"]);
    var flagUrl := ExtractFlagUrl(event);
    return Some(Notification(nation.value, event["str"], flagUrl));
  }

  /** The `for raw_event in response.events()` loop over one connection. */
  method Listen(frames: seq<Frame>, decode: string -> Option<Event>, blacklist: seq<string>)
    returns (sent: seq<Notification>)
    ensures sent == Forwarded(frames, decode, blacklist)
  {
    sent := [];
    for i := 0 to |frames|
      invariant sent == Forwarded(frames[..i], decode, blacklist)
    {
      var frame := frames[i];
      ForwardedStep(frames, i, decode, blacklist);
      var out := HandleFrame(frame, decode, blacklist);
      if out.Some? {
        assert Emitted(out) == [out.value];
        sent := sent + [out.value];
      } else {
        assert Emitted(out) == [];
        assert sent + [] == sent;
      }
    }
    assert frames[..|frames|] == frames;
  }

  /**
   * Frames are handled one at a time and independently: a stream read in two
   * parts forwards the first part's notifications, then the second's.
   */
  lemma {:induction false} ForwardedAppend(f1: seq<Frame>, f2: seq<Frame>, decode: string -> Option<Event>, blacklist: seq<string>)
    ensures Forwarded(f1 + f2, decode, blacklist) == Forwarded(f1, decode, blacklist) + Forwarded(f2, decode, blacklist)
    decreases |f1|
  {
    if |f1| == 0 {
      assert f1 + f2 == f2;
    } else {
      assert (f1 + f2)[0] == f1[0];
      assert (f1 + f2)[1..] == f1[1..] + f2;
      ForwardedAppend(f1[1..], f2, decode, blacklist);
    }
  }

  /** A single frame forwards what its own decision emits. */
  lemma ForwardedOne(frame: Frame, decode: string -> Option<Event>, blacklist: seq<string>)
    ensures Forwarded([frame], decode, blacklist) == Emitted(Decide(frame, decode, blacklist))
  {
    assert [frame][1..] == [];
  }

  /** Extending a prefix of the stream by one frame adds that frame's own contribution. */
  lemma ForwardedStep(frames: seq<Frame>, i: nat, decode: string -> Option<Event>, blacklist: seq<string>)
    requires i < |frames|
    ensures Forwarded(frames[..i + 1], decode, blacklist)
      == Forwarded(frames[..i], decode, blacklist) + Emitted(Decide(frames[i], decode, blacklist))
  {
    assert frames[..i + 1] == frames[..i] + [frames[i]];
    ForwardedAppend(frames[..i], [frames[i]], decode, blacklist);
    ForwardedOne(frames[i], decode, blacklist);
  }

  /** Every notification is what the decision on some frame of the stream yields. */
  lemma {:induction false} ForwardedFrom(frames: seq<Frame>, decode: string -> Option<Event>, blacklist: seq<string>, k: nat)
    requires k < |Forwarded(frames, decode, blacklist)|
    ensures exists j :: 0 <= j < |frames| && Decide(frames[j], decode, blacklist) == Some(Forwarded(frames, decode, blacklist)[k])
    decreases |frames|
  {
    var head := Emitted(Decide(frames[0], decode, blacklist));
    var rest := Forwarded(frames[1..], decode, blacklist);
    assert Forwarded(frames, decode, blacklist) == head + rest;
    if k < |head| {
      assert Decide(frames[0], decode, blacklist) == Some(Forwarded(frames, decode, blacklist)[k]);
    } else {
      assert Forwarded(frames, decode, blacklist)[k] == rest[k - |head|];
      ForwardedFrom(frames[1..], decode, blacklist, k - |head|);
      var j :| 0 <= j < |frames| - 1 && Decide(frames[1..][j], decode, blacklist) == Some(rest[k - |head|]);
      assert frames[1..][j] == frames[j + 1];
    }
  }

  /**
   * Every notification comes from a frame the forwarding rule accepts: it
   * names a non-empty nation that does not end in a digit, that nation is
   * the one in its event text, and its flag lies under the flag directory.
   */
  lemma ForwardedSound(frames: seq<Frame>, decode: string -> Option<Event>, blacklist: seq<string>, k: nat)
    requires k < |Forwarded(frames, decode, blacklist)|
    ensures var n := Forwarded(frames, decode, blacklist)[k];
      && n.nation != "" && !IsDigit(n.nation[|n.nation| - 1])
      && ExtractTargetName(n.display) == Some(n.nation)
      && StartsWith(n.flagUrl, Origin + FlagDir)
  {
    ForwardedFrom(frames, decode, blacklist, k);
    var j :| 0 <= j < |frames| && Decide(frames[j], decode, blacklist) == Some(Forwarded(frames, decode, blacklist)[k]);
    DecideSound(frames[j], decode, blacklist);
  }

  /** A stream with no "message" frame sends nothing. */
  lemma {:induction false} NoMessagesNoNotifications(frames: seq<Frame>, decode: string -> Option<Event>, blacklist: seq<string>)
    requires forall k :: 0 <= k < |frames| ==> frames[k].eventType != "message"
    ensures Forwarded(frames, decode, blacklist) == []
    decreases |frames|
  {
    if |frames| > 0 {
      assert Decide(frames[0], decode, blacklist) == None;
      NoMessagesNoNotifications(frames[1..], decode, blacklist);
    }
  }

  /** A frame that passes the rule on its own is forwarded at the end of whatever came before it. */
  lemma AcceptedFrameForwarded(before: seq<Frame>, frame: Frame, decode: string -> Option<Event>, blacklist: seq<string>)
    requires frame.eventType == "message" && frame.data != ""
    requires decode(frame.data).Some? && IsValidEvent(decode(frame.data).value, blacklist)
    ensures var event := decode(frame.data).value;
      Forwarded(before + [frame], decode, blacklist)
        == Forwarded(before, decode, blacklist)
           + [Notification(ExtractTargetName(event["str"]).value, event["str"], ExtractFlagUrl(event))]
  {
    ForwardedAppend(before, [frame], decode, blacklist);
    ForwardedOne(frame, decode, blacklist);
  }
}
