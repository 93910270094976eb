/** The two loops that build the engine ID from the system MAC address. */
module EngineId {
  import opened Words

  const PREFIX := "0x0000b8a303"
  const BUFFER := 32

  function WithoutColons(mac: string): string {
    if mac == [] then [] else
    var n := |mac| - 1;
    WithoutColons(mac[..n]) + if mac[n] == ':' then [] else [mac[n]]
  }

  function EngineIdText(mac: string): string {
    PREFIX + WithoutColons(mac)
  }

  predicate IsHexDigit(c: char) {
    '0' <= c <= '9' || 'a' <= c <= 'f' || 'A' <= c <= 'F'
  }

  /** How much of the text fits. */
  function InBuffer(mac: string): nat {
    if |EngineIdText(mac)| <= BUFFER then |EngineIdText(mac)| else BUFFER
  }

  /** The loop both files share. `idx` counts on even past the buffer; `overrun` tells whether a
      character was stored past it. */
  method CopyMac(buf: array<char>, mac: string) returns (idx: nat, overrun: bool)
    requires buf.Length == BUFFER && buf[..12] == PREFIX
    modifies buf
    ensures idx == |EngineIdText(mac)|
    ensures overrun == (idx > BUFFER)
    ensures buf[..InBuffer(mac)] == EngineIdText(mac)[..InBuffer(mac)]
  {
    idx, overrun := 12, false;
    for i := 0 to |mac|
      invariant idx == |EngineIdText(mac[..i])|
      invariant overrun == (idx > BUFFER)
      invariant buf[..InBuffer(mac[..i])] == EngineIdText(mac[..i])[..InBuffer(mac[..i])]
    {
      assert mac[..i + 1][..i] == mac[..i];
      if mac[i] != ':' {
        if idx < BUFFER {
          buf[idx] := mac[i];
        } else {
          overrun := true;
        }
        idx := idx + 1;
      }
    }
    assert mac[..|mac|] == mac;
  }

  /** The prefix, and zeros behind it. */
  method StartEngineId(buf: array<char>)
    requires buf.Length == BUFFER
    modifies buf
    ensures buf[..12] == PREFIX
  {
    for i := 0 to BUFFER
      invariant forall j :: 0 <= j < i ==> buf[j] == if j < 12 then PREFIX[j] else '\0'
    {
      buf[i] := if i < 12 then PREFIX[i] else '\0';
    }
  }

  /** The daemon's copy: the terminator is stored without looking at the index. */
  method ConfEngineId(mac: string) returns (buf: array<char>, overrun: bool)
    ensures buf.Length == BUFFER
    ensures !overrun <==> |WithoutColons(mac)| <= 19
    ensures !overrun ==> IsText(buf[..], EngineIdText(mac))
  {
    buf := new char[BUFFER];
    StartEngineId(buf);
    var idx;
    idx, overrun := CopyMac(buf, mac);
    if idx < BUFFER {
      buf[idx] := '\0';
    } else {
      overrun := true;
    }
  }

  /** `text` and its terminator stand at the front of the buffer. */
  predicate IsText(buf: seq<char>, text: string) {
    |text| < |buf| && buf[..|text|] == text && buf[|text|] == '\0'
  }

  /** The trap library's copy: the index is checked before the terminator, after the characters. */
  method TrapEngineId(buf: array<char>, mac: string) returns (status: int, overrun: bool)
    requires buf.Length == BUFFER
    modifies buf
    ensures status in {0, -1}
    ensures status == 0 <==> |WithoutColons(mac)| <= 19
    ensures overrun <==> |WithoutColons(mac)| > 20
    ensures status == 0 ==> IsText(buf[..], EngineIdText(mac))
    ensures buf[..InBuffer(mac)] == EngineIdText(mac)[..InBuffer(mac)]
  {
    StartEngineId(buf);
    var idx;
    idx, overrun := CopyMac(buf, mac);
    if idx >= BUFFER {
      return -1, overrun;
    }
    buf[idx] := '\0';
    status := 0;
  }

  /** The sender's global buffer, filled by the first v3 trap and kept from then on. `made` is the MAC it
      was filled from. */
  class TrapSender {
    const buf: array<char>
    ghost var made: Option<string>

    ghost predicate Valid()
      reads this, buf
    {
      && buf.Length == BUFFER
      && match made
         case None => buf[0] == '\0'
         case Some(mac) =>
           && buf[..InBuffer(mac)] == EngineIdText(mac)[..InBuffer(mac)]
           && (|WithoutColons(mac)| <= 19 ==> IsText(buf[..], EngineIdText(mac)))
    }

    constructor ()
      ensures Valid() && made == None && fresh(buf)
    {
      buf := new char[BUFFER](i => '\0');
      made := None;
    }

    /** The engine ID of one trap. A MAC that is too long is noticed by the first trap only; the later ones
        take the buffer as it stands, without a terminator. No MAC but the first one counts. */
    method EngineIdForTrap(mac: string) returns (status: int)
      requires Valid()
      modifies this`made, buf
      ensures Valid() && made == if old(made) == None then Some(mac) else old(made)
      ensures status == -1 <==> old(made) == None && |WithoutColons(mac)| > 19
      ensures |WithoutColons(made.value)| <= 19 ==> status != -1 && IsText(buf[..], EngineIdText(made.value))
      ensures |WithoutColons(made.value)| > 19 ==> buf[..] == EngineIdText(made.value)[..BUFFER]
    {
      status := 0;
      if made.Some? {
        assert buf[..InBuffer(made.value)][0] == EngineIdText(made.value)[0] == '0';
      }
      if buf[0] == '\0' {
        assert made == None;
        var overrun;
        status, overrun := TrapEngineId(buf, mac);
        made := Some(mac);
      }
      assert |WithoutColons(made.value)| > 19 ==> buf[..InBuffer(made.value)] == buf[..];
    }
  }

  predicate IsColonPlace(i: int) {
    i == 2 || i == 5 || i == 8 || i == 11 || i == 14
  }

  /** Six octets in hexadecimal, separated by colons. */
  predicate IsMac(mac: string) {
    |mac| == 17 && forall i :: 0 <= i < 17 ==> if IsColonPlace(i) then mac[i] == ':' else IsHexDigit(mac[i])
  }

  lemma {:induction false} WithoutColonsOfMac(mac: string, k: nat)
    requires IsMac(mac) && k <= 17
    ensures |WithoutColons(mac[..k])| == k - (k / 3)
    ensures forall i :: 0 <= i < |WithoutColons(mac[..k])| ==> IsHexDigit(WithoutColons(mac[..k])[i])
  {
    if k > 0 {
      WithoutColonsOfMac(mac, k - 1);
      assert mac[..k][..k - 1] == mac[..k - 1];
      assert IsColonPlace(k - 1) <==> k % 3 == 0;
    }
  }

  /** A six-octet MAC gives 22 hexadecimal digits after `0x`: 11 octets, inside the 5 to 32 of
      section 5 of RFC 3411. */
  lemma MacGivesElevenOctets(mac: string)
    requires IsMac(mac)
    ensures var id := EngineIdText(mac);
      && id[..2] == "0x" && |id| - 2 == 2 * 11
      && forall i :: 2 <= i < |id| ==> IsHexDigit(id[i])
  {
    WithoutColonsOfMac(mac, 17);
    assert mac[..17] == mac;
    var id := EngineIdText(mac);
    forall i | 2 <= i < |id| ensures IsHexDigit(id[i]) {
      if i < 12 {
        assert id[i] == PREFIX[i];
      } else {
        assert id[i] == WithoutColons(mac)[i - 12];
      }
    }
  }

  // ----- which characters

  /** The places of the characters other than colons, in order. */
  predicate PlacesOfDigits(mac: string, places: seq<nat>) {
    && (forall k :: 0 <= k < |places| ==> places[k] < |mac| && mac[places[k]] != ':')
    && (forall k, l :: 0 <= k < l < |places| ==> places[k] < places[l])
    && (forall i :: 0 <= i < |mac| && mac[i] != ':' ==> i in places)
  }

  /** The text copied is the MAC's own characters at those places. */
  lemma {:induction false} DigitsOfMac(mac: string) returns (places: seq<nat>)
    ensures PlacesOfDigits(mac, places) && |WithoutColons(mac)| == |places|
    ensures forall k :: 0 <= k < |places| ==> WithoutColons(mac)[k] == mac[places[k]]
  {
    places := [];
    if mac != [] {
      var n := |mac| - 1;
      var before := DigitsOfMac(mac[..n]);
      places := before;
      if mac[n] != ':' {
        places := before + [n];
      }
      forall i | 0 <= i < |mac| && mac[i] != ':' ensures i in places {
        if i < n {
          assert mac[..n][i] == mac[i] && i in before;
        } else {
          assert places[|before|] == n;
        }
      }
    }
  }

  /** For a six-octet MAC: the fixed prefix and its twelve digits, skipping every third character. */
  lemma EngineIdOfMac(mac: string)
    requires IsMac(mac)
    ensures var id := EngineIdText(mac);
      |id| == 24 && id[..12] == "0x0000b8a303" && forall k :: 0 <= k < 12 ==> id[12 + k] == mac[k + k / 2]
  {
    assert mac[..17] == mac;
    WithoutColonsOfMac(mac, 17);
    forall k | 0 <= k < 12 ensures WithoutColons(mac)[k] == mac[k + k / 2] {
      DigitAt(mac, 17, k);
    }
  }

  lemma {:induction false} DigitAt(mac: string, n: nat, k: nat)
    requires IsMac(mac) && n <= 17 && k < n - n / 3
    ensures |WithoutColons(mac[..n])| == n - n / 3 && WithoutColons(mac[..n])[k] == mac[k + k / 2]
  {
    WithoutColonsOfMac(mac, n);
    WithoutColonsOfMac(mac, n - 1);
    assert mac[..n][..n - 1] == mac[..n - 1];
    assert IsColonPlace(n - 1) <==> n % 3 == 0;
    if k < (n - 1) - (n - 1) / 3 {
      DigitAt(mac, n - 1, k);
    } else {
      assert k == n - 1 - (n - 1) / 3 && k + k / 2 == n - 1;
    }
  }
}
