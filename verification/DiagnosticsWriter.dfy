/** The writer object: each method is one section that runs under a lock or between two waits. */
module DiagnosticsWriter {
  import opened Common
  import opened WriterModel

  class Writer {
    var place: Place
    var messages: Slot
    var raw: Option<int>
    var stopping: bool
    ghost var saved: set<int>
    var rejected: set<int>
    var uncertain: set<int>
    ghost var confirmed: set<int>
    ghost var rows: set<int>
    ghost var accepted: set<int>
    var offered: int

    ghost function View(): WriterModel.Writer
      reads this
    {
      WriterModel.Writer(place, messages, raw, stopping, saved, rejected, uncertain, confirmed, rows, accepted, offered)
    }

    constructor ()
      ensures View() == Fresh()
    {
      place, messages, raw, stopping := NotStarted, Nothing, None, false;
      saved, rejected, uncertain, accepted, offered := {}, {}, {}, {}, 0;
      confirmed, rows := {}, {};
    }

    method Offer(size: nat) returns (ok: bool)
      modifies this
      ensures ok == Accepts(old(View()), size) && View() == DoOffer(old(View()), size)
    {
      var id := offered;
      offered := offered + 1;
      if size > MAX_INPUT || place.NotStarted? || place.Exited? || stopping {
        return false;
      }
      if !messages.Nothing? {
        return false;
      }
      messages := Message(id);
      accepted := accepted + {id};
      ok := true;
    }

    method RequestStop()
      modifies this
      ensures View() == DoRequestStop(old(View()))
    {
      stopping := true;
      if messages.Message? {
        rejected := rejected + {messages.id};
      }
      messages := Wake;
    }

    /** `messages.get()` once something is there; the sentinel ends the loop. */
    method TakeMessage()
      requires !messages.Nothing?
      modifies this
      ensures View() == DoTake(old(View()))
    {
      if messages.Wake? {
        place := Closing;
      } else {
        raw := Some(messages.id);
        place := AwaitingPermission;
      }
      messages := Nothing;
    }

    /** The result of `store.append`, classified before the status is refreshed. */
    method RecordAppend(result: Append)
      requires raw.Some?
      modifies this
      ensures View() == DoAppend(old(View()), result)
    {
      match result
      case ReturnsTrue =>
        saved, confirmed := saved + {raw.value}, confirmed + {raw.value};
        raw, place := None, Classified;
      case ReturnsFalse =>
        rejected := rejected + {raw.value};
        raw, place := None, Classified;
      case Raises(present) =>
        if present {
          rows := rows + {raw.value};
        }
        place := Resolving;
    }

    /** The error handler; `found` answers `contains_interval`, None that it raised too. */
    method ResolveRaised(found: Option<bool>)
      requires raw.Some? && (found.Some? ==> found.value == (raw.value in rows))
      modifies this
      ensures View() == DoResolve(old(View()), found.Some?)
    {
      if found.None? {
        uncertain := uncertain + {raw.value};
      } else if found.value {
        saved := saved + {raw.value};
      } else {
        rejected := rejected + {raw.value};
      }
      raw, place := None, LoopTop;
    }

    /** The outer `finally`: an unwritten message is rejected, then the slot is drained. */
    method Finish()
      requires place.Closing?
      modifies this
      ensures View() == DoDrain(Next(old(View()), Close))
    {
      if raw.Some? {
        rejected := rejected + {raw.value};
        raw := None;
      }
      stopping := true;
      if messages.Message? {
        rejected := rejected + {messages.id};
      }
      messages, place := Nothing, Exited;
    }
  }
}
