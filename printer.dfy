/**
 src/printer.rs: time-stamped console lines. The clock is left out: each
 function takes the whole seconds elapsed since the start instant and
 returns the line `println!` would print.
 */
module Printer {
  import opened Net
  import opened TimeFormat

  /** The message `init` announces: `My address is "<addr>"`. */
  function AddressAnnouncement(addr: SocketAddr): string {
    "My address is \"" + AddrToString(addr) + "\""
  }

  /** The announcement carries the address, quoted, after `My address is `. */
  lemma AnnouncementNamesAddr(addr: SocketAddr)
    ensures var r := AddressAnnouncement(addr);
      && |r| == 16 + |AddrToString(addr)| && r[..15] == "My address is \"" && r[|r| - 1] == '"'
      && r[15..|r| - 1] == AddrToString(addr)
  {
  }

  /**
   `# <stamp> - <msg>`, where the stamp reads back as `elapsed` seconds and is
   eight characters (`HH:MM:SS`) exactly below 100 hours.
   */
  predicate IsTimeLine(line: string, elapsed: nat, msg: string) {
    && |line| >= 13 + |msg| && line[..2] == "# " && line[|line| - |msg|..] == msg
    && line[|line| - |msg| - 3..|line| - |msg|] == " - "
    && IsClockText(line[2..|line| - |msg| - 3]) && ReadClock(line[2..|line| - |msg| - 3]) == elapsed
    && (|line| == 13 + |msg| <==> elapsed < 360000)
  }

  /** `SimplePrinter::time`: `# HH:MM:SS - <msg>` for the elapsed seconds. */
  function Time(elapsed: nat, msg: string): (line: string)
    ensures IsTimeLine(line, elapsed, msg)
  {
    var hours := elapsed / 3600;
    var minutes := (elapsed % 3600) / 60;
    var seconds := elapsed % 60;
    var stamp := Stamp(hours, minutes, seconds);
    var line := "# " + stamp + " - " + msg;
    Framed("# ", stamp, " - ", msg);
    StampReadsBack(elapsed);
    line
  }

  /**
   The line is fully determined: any stamp that reads back as `elapsed`,
   framed the same way, gives the line `Time` prints.
   */
  lemma TimeDetermined(elapsed: nat, msg: string, t: string)
    requires IsClockText(t) && ReadClock(t) == elapsed
    ensures Time(elapsed, msg) == "# " + t + " - " + msg
  {
    var (h, m, s) := Split(elapsed);
    StampReadsBack(elapsed);
    ClockTextUnique(Stamp(h, m, s), t);
  }

  /** The pieces of a line of four parts can be cut back out of it. */
  lemma Framed(head: string, stamp: string, sep: string, msg: string)
    ensures var line := head + stamp + sep + msg;
      && |line| == |head| + |stamp| + |sep| + |msg|
      && line[..|head|] == head
      && line[|head|..|head| + |stamp|] == stamp
      && line[|line| - |msg| - |sep|..|line| - |msg|] == sep
      && line[|line| - |msg|..] == msg
  {
    var line := head + stamp + sep + msg;
    assert line == head + (stamp + (sep + msg));
    assert line == (head + stamp + sep) + msg;
    assert line == (head + stamp) + sep + msg;
  }

  /** `init`: the first line, announcing the node's address. */
  function Init(addr: SocketAddr, elapsed: nat): (line: string)
    ensures IsTimeLine(line, elapsed, AddressAnnouncement(addr))
    ensures |line| >= 13
    ensures elapsed < 360000 ==> line[13..] == AddressAnnouncement(addr)
    ensures elapsed == 0 ==> line == "# 00:00:00 - " + AddressAnnouncement(addr)
  {
    var msg := AddressAnnouncement(addr);
    var line := Time(elapsed, msg);
    if elapsed == 0 then
      ZeroStamp();
      ZeroHead();
      assert line == "# " + "00:00:00" + " - " + msg;
      line
    else line
  }

  lemma ZeroHead()
    ensures "# " + "00:00:00" + " - " == "# 00:00:00 - "
  {
  }

  /**
   `print_event`: the message behind `# `, a stamp that reads back as the
   elapsed seconds, and ` - `; the stamp is `HH:MM:SS` exactly below 100
   hours.
   */
  function PrintEvent(elapsed: nat, msg: string): (line: string)
    ensures IsTimeLine(line, elapsed, msg)
  {
    Time(elapsed, msg)
  }
}
