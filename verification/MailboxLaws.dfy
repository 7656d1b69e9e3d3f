/** What a call on a mailbox is answered, said of how much mail has been stored and received. */
module MailboxLaws {
  import opened Base
  import opened Lists
  import opened Mailbox

  /** The mail that has been stored and not yet received. */
  ghost function Outstanding(s: Sys): int {
    |s.stored| - |s.received|
  }

  /** The first of a list of sleepers is woken. */
  ghost predicate FirstWoken(xs: seq<Tid>, ys: seq<Tid>) {
    if xs == [] then ys == [] else xs == [xs[0]] + ys
  }

  /**
   * A sender, new or woken, has its value stored exactly if less mail is outstanding than the mailbox
   * holds, and the first receiver asleep is woken then. Otherwise it returns or sleeps by its time left.
   */
  lemma SendExactly(s: Sys, t: Tid, value: u32, timeout: int, k: nat)
    requires Inv(s) && k <= |s.box.senders|
    ensures var u := Step(s, t, Sending(value, timeout), k);
            && u.received == s.received
            && if Outstanding(s) < s.box.size then
                 && u.stored == s.stored + [value] && u.calls == s.calls - {t}
                 && FirstWoken(s.box.receivers, u.box.receivers) && u.box.senders == s.box.senders
               else
                 && Outstanding(s) == s.box.size && u.stored == s.stored && u.box.receivers == s.box.receivers
                 && if timeout == 0 then u.calls == s.calls - {t} && u.box == s.box
                    else
                      && u.calls == s.calls[t := Sending(value, timeout)]
                      && u.box.senders == s.box.senders[..k] + [t] + s.box.senders[k..]
  {
    assert s.received + s.box.mail == s.stored;
    hide Listed, Balanced;
    InsertedIs(s.box.senders, k, t);
  }

  /** A receiver gets the oldest outstanding mail exactly if there is any, and the first sender asleep is woken. */
  lemma RecvExactly(s: Sys, t: Tid, timeout: int, k: nat)
    requires Inv(s) && k <= |s.box.receivers|
    ensures var u := Step(s, t, Receiving(timeout), k);
            && u.stored == s.stored
            && if Outstanding(s) > 0 then
                 && u.received == s.received + [s.stored[|s.received|]] && u.calls == s.calls - {t}
                 && FirstWoken(s.box.senders, u.box.senders) && u.box.receivers == s.box.receivers
               else
                 && Outstanding(s) == 0 && u.received == s.received && u.box.senders == s.box.senders
                 && if timeout == 0 then u.calls == s.calls - {t} && u.box == s.box
                    else
                      && u.calls == s.calls[t := Receiving(timeout)]
                      && u.box.receivers == s.box.receivers[..k] + [t] + s.box.receivers[k..]
  {
    assert s.received + s.box.mail == s.stored;
    assert |s.box.mail| > 0 ==> (s.received + s.box.mail)[|s.received|] == s.box.mail[0];
    hide Listed, Balanced;
    InsertedIs(s.box.receivers, k, t);
  }

  /** A caller that is woken has the rest of its time left, or none. */
  ghost function TimeLeft(timeout: int, elapsed: nat): int {
    if timeout < 0 then timeout else if elapsed < timeout then timeout - elapsed else 0
  }

  /** The subtraction in a word is right exactly unless the time has been exceeded by more than half its range. */
  lemma RemainingExactly(timeout: int, elapsed: u32)
    requires -0x8000_0000 <= timeout < 0x8000_0000
    ensures Remaining(timeout, elapsed) == TimeLeft(timeout, elapsed) <==>
              timeout <= 0 || elapsed - timeout <= 0x8000_0000
  {
  }

  /** A caller that waited for a tick and is woken much later waits on for almost as long as one can. */
  lemma RemainingFails()
    ensures Remaining(1, 0x8000_0002) == 0x7FFF_FFFF
  {
  }
}
