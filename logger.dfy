/**
 src/logger.rs: an asynchronous alternative to src/printer.rs, not compiled
 into the binary. The task spawn and the clock are left out; each function
 returns the line `log_time` would print for the elapsed whole seconds.
 */
module Logger {
  import opened Net
  import opened TimeFormat
  import Printer

  /** `SimpleLogger::log_time`: `# HH:MM:SS - <msg>`, the same line the printer prints. */
  function LogTime(elapsed: nat, msg: string): (line: string)
    ensures Printer.IsTimeLine(line, elapsed, msg)
    ensures line == Printer.Time(elapsed, msg)
  {
    var hours := elapsed / 3600;
    var minutes := (elapsed % 3600) / 60;
    var seconds := elapsed % 60;
    var line := "# " + Stamp(hours, minutes, seconds) + " - " + msg;
    assert line == Printer.Time(elapsed, msg);
    line
  }

  /** `init`: logs `My address is "<addr>"`. */
  function Init(addr: SocketAddr, elapsed: nat): (line: string)
    ensures Printer.IsTimeLine(line, elapsed, Printer.AddressAnnouncement(addr))
    ensures |line| >= 13
    ensures elapsed < 360000 ==> line[13..] == Printer.AddressAnnouncement(addr)
    ensures elapsed == 0 ==> line == "# 00:00:00 - " + Printer.AddressAnnouncement(addr)
  {
    var line := LogTime(elapsed, Printer.AddressAnnouncement(addr));
    assert line == Printer.Init(addr, elapsed);
    line
  }

  /** `log`: the same line the printer's `print_event` prints for the same start and message. */
  function Log(elapsed: nat, msg: string): (line: string)
    ensures line == Printer.PrintEvent(elapsed, msg)
  {
    LogTime(elapsed, msg)
  }
}
