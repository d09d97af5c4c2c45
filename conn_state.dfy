/**
 * The shared application state of common/connection/app_state.js: the selected board, the
 * transport, the baud rate, the end of line each board expects, and the link flags.
 */
module ConnectionState {
  import opened Js
  import opened Wrappers
  import Ble

  datatype Device = Microbit | Esp32 | Orange
  datatype Transport = BleTransport | SerialTransport

  function DeviceName(d: Device): string {
    match d
    case Microbit => "microbit"
    case Esp32 => "esp32"
    case Orange => "orange"
  }

  function TransportName(t: Transport): string {
    match t
    case BleTransport => "ble"
    case SerialTransport => "serial"
  }

  /** The board `setDevice` selects: the one named, microbit for any other name. */
  function ParseDevice(name: string): (d: Device)
    ensures name == DeviceName(d) || (d == Microbit && forall e :: name != DeviceName(e))
  {
    if name == "esp32" then Esp32
    else if name == "orange" then Orange
    else Microbit
  }

  /** Naming a board and reading the name back gives the board. */
  lemma {:induction false} ParseDeviceName(d: Device)
    ensures ParseDevice(DeviceName(d)) == d
  {
  }

  /** The transport `setTransport` accepts, `None` for any other name. */
  function ParseTransport(name: string): (t: Option<Transport>)
    ensures t.Some? <==> name == "ble" || name == "serial"
    ensures t.Some? ==> TransportName(t.value) == name
  {
    if name == "ble" then Some(BleTransport)
    else if name == "serial" then Some(SerialTransport)
    else None
  }

  /** `BAUD[device] || 115200`. */
  function Baud(d: Device): (r: nat)
    ensures r == 9600 <==> d == Orange
    ensures r != 9600 ==> r == 115200
  {
    match d
    case Microbit => 115200
    case Esp32 => 115200
    case Orange => 9600
  }

  /** The `EOL` table. */
  function EolEntry(t: Transport, d: Device): string {
    match t
    case BleTransport => (match d case Microbit => "\n" case Esp32 => "" case Orange => "\n")
    case SerialTransport => (match d case Microbit => "\n" case Esp32 => "\r\n" case Orange => "\n")
  }

  /** The `eol` getter: the table entry, or LF when that entry is empty. */
  function Eol(t: Transport, d: Device): (r: string)
    ensures r != ""
    ensures EolEntry(t, d) != "" ==> r == EolEntry(t, d)
  {
    var entry := EolEntry(t, d);
    if entry == "" then "\n" else entry
  }

  /** Only esp32 over serial ends lines with CR LF; every other pair, esp32 over BLE included, with LF. */
  lemma {:induction false} EolCases(t: Transport, d: Device)
    ensures Eol(t, d) == (if t == SerialTransport && d == Esp32 then "\r\n" else "\n")
  {
  }

  /**
   * The end of line the table evidently means, `??` rather than `||`: the empty BLE entry for
   * esp32 stays empty, so `_getEol` of ble.js frames esp32 messages without a delimiter.
   */
  function IntendedEol(t: Transport, d: Device): (r: string)
    ensures r == EolEntry(t, d)
  {
    EolEntry(t, d)
  }

  /**
   * The getter and the intended reading differ only for esp32 over BLE, where the getter's LF
   * overrides the entry that asks for none; there the BLE link sends the bytes of the message
   * and nothing after them.
   */
  lemma {:induction false} EolDiffersOnlyForBleEsp32(t: Transport, d: Device, msg: string)
    ensures Eol(t, d) != IntendedEol(t, d) <==> t == BleTransport && d == Esp32
    ensures IntendedEol(BleTransport, Esp32) == "" && Eol(BleTransport, Esp32) == "\n"
    ensures msg + IntendedEol(BleTransport, Esp32) == msg
  {
  }

  /** The `AppState` object. */
  class AppState {
    var device: Device
    var transport: Transport
    var manager: Ble.BleManager?
    var bleConnected: bool
    var serialPortOpen: bool
    var baudRate: nat

    /** The initial state: microbit over serial at 115200 baud, nothing connected. */
    constructor ()
      ensures device == Microbit && transport == SerialTransport && manager == null
      ensures !bleConnected && !serialPortOpen && baudRate == Baud(Microbit)
    {
      device := Microbit;
      transport := SerialTransport;
      manager := null;
      bleConnected := false;
      serialPortOpen := false;
      baudRate := Baud(Microbit);
    }

    /** The `baud` getter. */
    function BaudNow(): (r: nat)
      reads this
      ensures r == baudRate
    {
      baudRate
    }

    /** The `eol` getter. */
    function EolNow(): (r: string)
      reads this
      ensures r == Eol(transport, device)
    {
      Eol(transport, device)
    }

    /**
     * `setDevice(name)`: select the board (microbit for an unknown name), set its baud rate, and
     * put the BLE manager, when there is one, in that board's mode.
     */
    method SetDevice(name: string)
      modifies this, manager
      ensures device == ParseDevice(name) && baudRate == Baud(device)
      ensures transport == old(transport) && manager == old(manager)
      ensures bleConnected == old(bleConnected) && serialPortOpen == old(serialPortOpen)
      ensures manager != null ==>
                (manager.deviceMode == DeviceName(device) && manager.lineBuf == old(manager.lineBuf)
                 && manager.device == old(manager.device))
    {
      device := ParseDevice(name);
      baudRate := Baud(device);
      if manager != null {
        manager.SetMode(DeviceName(device));
      }
    }

    /** `setTransport(name)`: only "ble" and "serial" change the transport. */
    method SetTransport(name: string)
      modifies this
      ensures transport == (if ParseTransport(name).Some? then ParseTransport(name).value else old(transport))
      ensures device == old(device) && baudRate == old(baudRate) && manager == old(manager)
      ensures bleConnected == old(bleConnected) && serialPortOpen == old(serialPortOpen)
    {
      if name != "ble" && name != "serial" {
        return;
      }
      transport := ParseTransport(name).value;
    }

    method SetBleManager(m: Ble.BleManager?)
      modifies this
      ensures manager == m
      ensures device == old(device) && transport == old(transport) && baudRate == old(baudRate)
      ensures bleConnected == old(bleConnected) && serialPortOpen == old(serialPortOpen)
    {
      manager := m;
    }

    /** `setBleConnected(v)`: the flag is `!!v`. */
    method SetBleConnected(v: JsValue)
      modifies this
      ensures bleConnected == Truthy(v)
      ensures device == old(device) && transport == old(transport) && baudRate == old(baudRate)
      ensures manager == old(manager) && serialPortOpen == old(serialPortOpen)
    {
      bleConnected := Truthy(v);
    }

    /** `setSerialPortOpen(v)`: the flag is `!!v`. */
    method SetSerialPortOpen(v: JsValue)
      modifies this
      ensures serialPortOpen == Truthy(v)
      ensures device == old(device) && transport == old(transport) && baudRate == old(baudRate)
      ensures manager == old(manager) && bleConnected == old(bleConnected)
    {
      serialPortOpen := Truthy(v);
    }
  }
}
