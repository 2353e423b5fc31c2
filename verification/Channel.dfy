/** Channels and their event masks (lib/channel.c, lib/channel.h, lib/epoll_dispatcher.c). */
module Channels {

  const EVENT_READ: bv8 := 0x02
  const EVENT_WRITE: bv8 := 0x04
  const EPOLLIN: bv32 := 0x001
  const EPOLLOUT: bv32 := 0x004

  predicate WriteEnabled(events: bv8) {
    events & EVENT_WRITE != 0
  }

  predicate ReadEnabled(events: bv8) {
    events & EVENT_READ != 0
  }

  function EnableWrite(events: bv8): (r: bv8)
    ensures WriteEnabled(r) && (ReadEnabled(r) <==> ReadEnabled(events))
  {
    events | EVENT_WRITE
  }

  function DisableWrite(events: bv8): (r: bv8)
    ensures !WriteEnabled(r) && (ReadEnabled(r) <==> ReadEnabled(events))
  {
    events & !EVENT_WRITE
  }

  /** The mask handed to `epoll_ctl`. */
  function ToEpoll(events: bv8): (m: bv32)
    ensures m & EPOLLIN != 0 <==> ReadEnabled(events)
    ensures m & EPOLLOUT != 0 <==> WriteEnabled(events)
  {
    var m: bv32 := if ReadEnabled(events) then EPOLLIN else 0;
    if WriteEnabled(events) then m | EPOLLOUT else m
  }

  /** Enabling and disabling leave every other bit alone and undo each other; in the kernel's mask
      they switch EPOLLOUT and nothing else. */
  lemma WriteBitOnly(events: bv8)
    ensures EnableWrite(events) & !EVENT_WRITE == events & !EVENT_WRITE
    ensures DisableWrite(EnableWrite(events)) == DisableWrite(events)
    ensures EnableWrite(DisableWrite(events)) == EnableWrite(events)
    ensures !WriteEnabled(events) ==> DisableWrite(EnableWrite(events)) == events
    ensures ToEpoll(EnableWrite(events)) == ToEpoll(events) | EPOLLOUT
    ensures ToEpoll(DisableWrite(events)) == ToEpoll(events) & !EPOLLOUT
    ensures ToEpoll(events) & 0x001 != 0 <==> events & 0x02 != 0
    ensures ToEpoll(events) & 0x004 != 0 <==> events & 0x04 != 0
  {
  }

  class Channel {
    const fd: int
    /** Whether there is a callback for reading, and one for writing. */
    const onRead: bool
    const onWrite: bool
    var events: bv8
    /** How many updates this channel has handed to its event loop. */
    var updates: nat

    constructor (fd: int, events: bv8, onRead: bool, onWrite: bool)
      ensures this.fd == fd && this.events == events && updates == 0
      ensures this.onRead == onRead && this.onWrite == onWrite
    {
      this.fd, this.onRead, this.onWrite := fd, onRead, onWrite;
      this.events := events;
      updates := 0;
    }

    method WriteEventEnable()
      modifies this
      ensures events == EnableWrite(old(events)) && updates == old(updates) + 1
    {
      events := events | EVENT_WRITE;
      updates := updates + 1;
    }

    method WriteEventDisable()
      modifies this
      ensures events == DisableWrite(old(events)) && updates == old(updates) + 1
    {
      events := events & !EVENT_WRITE;
      updates := updates + 1;
    }
  }
}
