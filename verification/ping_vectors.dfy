/** The three outputs of the source's parser test (macOS, Linux, and BusyBox in Docker) read
    back as their average round-trip times. The text before each statistics line is kept in
    short pieces; the statistics lines are spelled with `StatsLine`. */
module PingVectors {
  import opened Wrappers
  import opened Strings
  import opened Durations
  import opened PingParser

  const MacPreamble: seq<string> := [
    "PING 127.0.0.1 ", "(127.0.0.1): ", "56 data bytes\n",
    "64 bytes from ", "127.0.0.1: ", "icmp_seq=0 ", "ttl=64 ", "time=0.036 ms\n",
    "\n",
    "--- 127.0.0.1 ", "ping statistics ---\n",
    "1 packets ", "transmitted, ", "1 packets ", "received, ", "0.0% packet loss\n",
    "round-trip "]
  const MacFigures: seq<string> := ["0.036", "0.036", "0.036", "0.000"]
  /** Ends with "min/avg/max/stddev = 0.036/0.036/0.036/0.000 ms". */
  const MacOutput: string := Concat(MacPreamble) + StatsLine("/stddev =", MacFigures, "ms")

  const LinuxPreamble: seq<string> := [
    "PING 127.0.0.1 ", "(127.0.0.1) ", "56(84) bytes ", "of data.\n",
    "64 bytes from ", "127.0.0.1: ", "icmp_seq=1 ", "ttl=64 ", "time=0.033 ms\n",
    "\n",
    "--- 127.0.0.1 ", "ping statistics ---\n",
    "1 packets ", "transmitted, ", "1 received, ", "0% packet loss, ", "time 0ms\n",
    "rtt "]
  const LinuxFigures: seq<string> := ["0.033", "0.033", "0.033", "0.000"]
  /** Ends with "min/avg/max/mdev = 0.033/0.033/0.033/0.000 ms". */
  const LinuxOutput: string := Concat(LinuxPreamble) + StatsLine("/mdev =", LinuxFigures, "ms")

  const DockerPreamble: seq<string> := [
    "PING 127.0.0.1 ", "(127.0.0.1): ", "56 data bytes\n",
    "64 bytes from ", "127.0.0.1: ", "seq=0 ", "ttl=64 ", "time=0.040 ms\n",
    "\n",
    "--- 127.0.0.1 ", "ping statistics ---\n",
    "1 packets ", "transmitted, ", "1 packets ", "received, ", "0% packet loss\n",
    "round-trip "]
  const DockerFigures: seq<string> := ["0.040", "0.040", "0.040"]
  /** Ends with "min/avg/max = 0.040/0.040/0.040 ms". */
  const DockerOutput: string := Concat(DockerPreamble) + StatsLine(" =", DockerFigures, "ms")

  lemma MacPreambleLacksSlash()
    ensures forall i :: 0 <= i < |MacPreamble| ==> '/' !in MacPreamble[i]
  {
    MacPreambleHeadLacksSlash();
    MacPreambleTailLacksSlash();
  }

  lemma MacPreambleHeadLacksSlash()
    ensures forall i :: 0 <= i < 8 ==> '/' !in MacPreamble[i]
  {
    assert '/' !in MacPreamble[0];
    assert '/' !in MacPreamble[1];
    assert '/' !in MacPreamble[2];
    assert '/' !in MacPreamble[3];
    assert '/' !in MacPreamble[4];
    assert '/' !in MacPreamble[5];
    assert '/' !in MacPreamble[6];
    assert '/' !in MacPreamble[7];
  }

  lemma MacPreambleTailLacksSlash()
    ensures forall i :: 8 <= i < |MacPreamble| ==> '/' !in MacPreamble[i]
  {
    assert '/' !in MacPreamble[8];
    assert '/' !in MacPreamble[9];
    assert '/' !in MacPreamble[10];
    assert '/' !in MacPreamble[11];
    assert '/' !in MacPreamble[12];
    assert '/' !in MacPreamble[13];
    assert '/' !in MacPreamble[14];
    assert '/' !in MacPreamble[15];
    assert '/' !in MacPreamble[16];
  }

  lemma MacStatistics(figures: seq<string>)
    requires figures == ["0.036", "0.036", "0.036", "0.000"]
    ensures ParsePing(Concat(MacPreamble) + StatsLine("/stddev =", figures, "ms")) == Ok(36 * Microsecond)
  {
    MacPreambleLacksSlash();
    ThreeDigits("036");
    assert forall i :: 0 <= i < |figures| ==> '/' !in figures[i] && ' ' !in figures[i];
    assert figures[1] == "0." + "036";
    MillisecondAverage(MacPreamble, "/stddev =", figures, "036", 36);
  }

  /** The macOS output reads back as an average of 36 microseconds. */
  lemma MacAverage()
    ensures ParsePing(MacOutput) == Ok(36 * Microsecond)
  {
    MacStatistics(["0.036", "0.036", "0.036", "0.000"]);
  }

  lemma LinuxPreambleLacksSlash()
    ensures forall i :: 0 <= i < |LinuxPreamble| ==> '/' !in LinuxPreamble[i]
  {
    LinuxPreambleHeadLacksSlash();
    LinuxPreambleTailLacksSlash();
  }

  lemma LinuxPreambleHeadLacksSlash()
    ensures forall i :: 0 <= i < 9 ==> '/' !in LinuxPreamble[i]
  {
    assert '/' !in LinuxPreamble[0];
    assert '/' !in LinuxPreamble[1];
    assert '/' !in LinuxPreamble[2];
    assert '/' !in LinuxPreamble[3];
    assert '/' !in LinuxPreamble[4];
    assert '/' !in LinuxPreamble[5];
    assert '/' !in LinuxPreamble[6];
    assert '/' !in LinuxPreamble[7];
    assert '/' !in LinuxPreamble[8];
  }

  lemma LinuxPreambleTailLacksSlash()
    ensures forall i :: 9 <= i < |LinuxPreamble| ==> '/' !in LinuxPreamble[i]
  {
    assert '/' !in LinuxPreamble[9];
    assert '/' !in LinuxPreamble[10];
    assert '/' !in LinuxPreamble[11];
    assert '/' !in LinuxPreamble[12];
    assert '/' !in LinuxPreamble[13];
    assert '/' !in LinuxPreamble[14];
    assert '/' !in LinuxPreamble[15];
    assert '/' !in LinuxPreamble[16];
    assert '/' !in LinuxPreamble[17];
  }

  lemma LinuxStatistics(figures: seq<string>)
    requires figures == ["0.033", "0.033", "0.033", "0.000"]
    ensures ParsePing(Concat(LinuxPreamble) + StatsLine("/mdev =", figures, "ms")) == Ok(33 * Microsecond)
  {
    LinuxPreambleLacksSlash();
    ThreeDigits("033");
    assert forall i :: 0 <= i < |figures| ==> '/' !in figures[i] && ' ' !in figures[i];
    assert figures[1] == "0." + "033";
    MillisecondAverage(LinuxPreamble, "/mdev =", figures, "033", 33);
  }

  /** The Linux output reads back as an average of 33 microseconds. */
  lemma LinuxAverage()
    ensures ParsePing(LinuxOutput) == Ok(33 * Microsecond)
  {
    LinuxStatistics(["0.033", "0.033", "0.033", "0.000"]);
  }

  lemma DockerPreambleLacksSlash()
    ensures forall i :: 0 <= i < |DockerPreamble| ==> '/' !in DockerPreamble[i]
  {
    DockerPreambleHeadLacksSlash();
    DockerPreambleTailLacksSlash();
  }

  lemma DockerPreambleHeadLacksSlash()
    ensures forall i :: 0 <= i < 8 ==> '/' !in DockerPreamble[i]
  {
    assert '/' !in DockerPreamble[0];
    assert '/' !in DockerPreamble[1];
    assert '/' !in DockerPreamble[2];
    assert '/' !in DockerPreamble[3];
    assert '/' !in DockerPreamble[4];
    assert '/' !in DockerPreamble[5];
    assert '/' !in DockerPreamble[6];
    assert '/' !in DockerPreamble[7];
  }

  lemma DockerPreambleTailLacksSlash()
    ensures forall i :: 8 <= i < |DockerPreamble| ==> '/' !in DockerPreamble[i]
  {
    assert '/' !in DockerPreamble[8];
    assert '/' !in DockerPreamble[9];
    assert '/' !in DockerPreamble[10];
    assert '/' !in DockerPreamble[11];
    assert '/' !in DockerPreamble[12];
    assert '/' !in DockerPreamble[13];
    assert '/' !in DockerPreamble[14];
    assert '/' !in DockerPreamble[15];
    assert '/' !in DockerPreamble[16];
  }

  lemma DockerStatistics(figures: seq<string>)
    requires figures == ["0.040", "0.040", "0.040"]
    ensures ParsePing(Concat(DockerPreamble) + StatsLine(" =", figures, "ms")) == Ok(40 * Microsecond)
  {
    DockerPreambleLacksSlash();
    ThreeDigits("040");
    assert forall i :: 0 <= i < |figures| ==> '/' !in figures[i] && ' ' !in figures[i];
    assert figures[1] == "0." + "040";
    MillisecondAverage(DockerPreamble, " =", figures, "040", 40);
  }

  /** The BusyBox output reads back as an average of 40 microseconds. */
  lemma DockerAverage()
    ensures ParsePing(DockerOutput) == Ok(40 * Microsecond)
  {
    DockerStatistics(["0.040", "0.040", "0.040"]);
  }

  /** A loopback reply too fast to register: every figure is zero. */
  const ZeroFigures: seq<string> := ["0.000", "0.000", "0.000"]
  const ZeroOutput: string := StatsLine(" =", ZeroFigures, "ms")

  lemma ZeroStatistics(figures: seq<string>)
    requires figures == ["0.000", "0.000", "0.000"]
    ensures ParsePing(StatsLine(" =", figures, "ms")) == Ok(0)
  {
    ThreeDigits("000");
    assert forall i :: 0 <= i < |figures| ==> '/' !in figures[i] && ' ' !in figures[i];
    assert figures[1] == "0." + "000";
    MillisecondAverage([], " =", figures, "000", 0);
    assert Concat([]) + StatsLine(" =", figures, "ms") == StatsLine(" =", figures, "ms");
  }

  /** A zero reading parses to a round-trip time of zero. */
  lemma ZeroAverage()
    ensures ParsePing(ZeroOutput) == Ok(0)
  {
    ZeroStatistics(["0.000", "0.000", "0.000"]);
  }
}
