/**
 * The SPI device node as the drivers use it: an abstract, finite source of 82-word packets.
 * Each SPI_IOC_MESSAGE ioctl with one transfer descriptor takes the next packet and writes it
 * into the receive buffer the descriptor names; the bus keeps a log of what it performed.
 */
module Bus {
  import opened VoSpi

  /** `s` with the 82 words starting at `at` replaced by packet `p`. */
  function Splice(s: seq<Word>, at: nat, p: Packet): (r: seq<Word>)
    requires at + VOSPI_FRAME_SIZE <= |s|
    ensures |r| == |s|
    ensures r[..at] == s[..at] && r[at .. at + VOSPI_FRAME_SIZE] == p
    ensures r[at + VOSPI_FRAME_SIZE..] == s[at + VOSPI_FRAME_SIZE..]
  {
    s[..at] + p + s[at + VOSPI_FRAME_SIZE..]
  }

  class SpiBus {
    /** The packets the sensor will still send, in order. */
    var packets: seq<Packet>
    /** The transfers and sleeps performed so far, oldest first. */
    var log: seq<BusEvent>

    constructor (stream: seq<Packet>)
      ensures packets == stream && log == []
    {
      packets := stream;
      log := [];
    }

    /** One ioctl(handle, SPI_IOC_MESSAGE(1), descriptor): receives `t.len` bytes at byte
        offset `t.rxBuf` of `buf`. Fails, changing nothing, once the sensor has stopped. */
    method Exchange(t: Transfer, buf: array<Word>) returns (ok: bool)
      requires t.len == VOSPI_FRAME_SIZE_BYTES
      requires t.rxBuf % 2 == 0 && t.rxBuf / 2 + VOSPI_FRAME_SIZE <= buf.Length
      modifies this, buf
      ensures ok <==> old(packets) != []
      ensures ok ==> packets == old(packets)[1..] && log == old(log) + [Xfer(t)]
      ensures ok ==> buf[..] == Splice(old(buf[..]), t.rxBuf / 2, old(packets)[0])
      ensures !ok ==> packets == old(packets) && log == old(log) && buf[..] == old(buf[..])
    {
      if packets == [] {
        return false;
      }
      var p := packets[0];
      var at := t.rxBuf / 2;
      forall j | 0 <= j < VOSPI_FRAME_SIZE {
        buf[at + j] := p[j];
      }
      assert buf[..] == Splice(old(buf[..]), at, p);
      packets := packets[1..];
      log := log + [Xfer(t)];
      ok := true;
    }

    /** time.sleep(ms / 1000): the bus stays idle; the sensor does not advance. */
    method Sleep(ms: nat)
      modifies this
      ensures packets == old(packets) && log == old(log) + [BusEvent.Sleep(ms)]
    {
      log := log + [BusEvent.Sleep(ms)];
    }
  }
}
