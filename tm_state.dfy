/**
 * The application state of teachableMachine/app_state.js: the same object as the shared one,
 * with an Arduino Uno in place of the Orange board and no BLE end of line of its own.
 */
module TmState {
  import opened Js
  import opened Wrappers
  import Ble

  datatype Device = Microbit | Esp32 | Uno
  datatype Transport = BleTransport | SerialTransport

  function DeviceName(d: Device): string {
    match d
    case Microbit => "microbit"
    case Esp32 => "esp32"
    case Uno => "uno"
  }

  /** The board `setDevice` selects: the one named, microbit for any other name. */
  function ParseDevice(name: string): (d: Device)
    ensures name == DeviceName(d) || (d == Microbit && forall e :: name != DeviceName(e))
  {
    if name == "esp32" then Esp32
    else if name == "uno" then Uno
    else Microbit
  }

  /** Naming a board and reading the name back gives the board. */
  lemma {:induction false} ParseDeviceName(d: Device)
    ensures ParseDevice(DeviceName(d)) == d
  {
  }

  /** The transport `setTransport` accepts, `None` for any other name. */
  function ParseTransport(name: string): (t: Option<Transport>)
    ensures t.Some? <==> name == "ble" || name == "serial"
    ensures t.Some? ==> (if t.value == BleTransport then "ble" else "serial") == name
  {
    if name == "ble" then Some(BleTransport)
    else if name == "serial" then Some(SerialTransport)
    else None
  }

  /** `BAUD[device] || 115200`. */
  function Baud(d: Device): (r: nat)
    ensures r == 9600 <==> d == Uno
    ensures r != 9600 ==> r == 115200
  {
    match d
    case Microbit => 115200
    case Esp32 => 115200
    case Uno => 9600
  }

  /** The `EOL` table: every BLE entry is empty. */
  function EolEntry(t: Transport, d: Device): string {
    match t
    case BleTransport => ""
    case SerialTransport => (match d case Microbit => "\n" case Esp32 => "\r\n" case Uno => "\n")
  }

  /** The `eol` getter: the table entry, or LF when that entry is empty. */
  function Eol(t: Transport, d: Device): (r: string)
    ensures r != ""
    ensures EolEntry(t, d) != "" ==> r == EolEntry(t, d)
  {
    var entry := EolEntry(t, d);
    if entry == "" then "\n" else entry
  }

  /**
   * Every board ends lines with LF, except esp32 over serial with CR LF; so the empty BLE
   * entries never reach the BLE manager, which always appends LF.
   */
  lemma {:induction false} EolCases(t: Transport, d: Device)
    ensures Eol(t, d) == (if t == SerialTransport && d == Esp32 then "\r\n" else "\n")
    ensures EolEntry(BleTransport, d) == "" && Eol(BleTransport, d) == "\n"
  {
  }

  /**
   * The line ending the table's comment intends: the entry itself, so that over BLE the
   * application asks for none and the BLE link decides.
   */
  function IntendedEol(t: Transport, d: Device): (r: string)
    ensures r == "" <==> t == BleTransport
    ensures r == EolEntry(t, d)
  {
    EolEntry(t, d)
  }

  /**
   * The getter and the intended reading differ exactly over BLE, for every board: the getter's
   * LF overrides each empty BLE entry, so the BLE link appends LF where nothing was asked for.
   */
  lemma {:induction false} EolDiffersForBle(t: Transport, d: Device, msg: string)
    ensures Eol(t, d) != IntendedEol(t, d) <==> t == BleTransport
    ensures IntendedEol(BleTransport, d) == "" && Eol(BleTransport, d) == "\n"
    ensures msg + IntendedEol(BleTransport, d) == msg
  {
  }

  /** The modes the BLE manager's `connect` tells apart. */
  predicate KnownMode(mode: string) {
    mode == "esp32" || mode == "orange" || mode == "microbit"
  }

  /** The mode `setDevice` hands the BLE manager as written: `device === 'uno' ? 'uno' : device`. */
  function ForwardedModeAsWritten(d: Device): (mode: string)
    ensures mode == DeviceName(d)
  {
    if d == Uno then "uno" else DeviceName(d)
  }

  /**
   * The conditional is the identity, so an Uno puts the BLE manager in a mode it does not know,
   * one its `connect` treats as a micro:bit.
   */
  lemma {:induction false} ForwardedModeAsWrittenUnknown()
    ensures ForwardedModeAsWritten(Uno) == "uno" && !KnownMode(ForwardedModeAsWritten(Uno))
  {
  }

  /** The mode the connection manager forwards, Uno mapped to the Orange (Nordic UART) mode. */
  function ForwardedMode(d: Device): (mode: string)
    ensures d == Uno ==> mode == "orange"
    ensures d != Uno ==> mode == DeviceName(d)
  {
    if d == Uno then "orange" else DeviceName(d)
  }

  /** Every board is forwarded as a mode the BLE manager knows, each to a different one. */
  lemma {:induction false} ForwardedModeKnown(d: Device, e: Device)
    ensures KnownMode(ForwardedMode(d))
    ensures ForwardedMode(d) == ForwardedMode(e) ==> d == e
  {
  }

  /** The `AppState` object. */
  class AppState {
    var device: Device
    var transport: Transport
    var manager: Ble.BleManager?
    var bleConnected: bool
    var serialPortOpen: bool
    var baudRate: nat

    /** The initial state: microbit over serial at 115200 baud, nothing connected. */
    constructor ()
      ensures device == Microbit && transport == SerialTransport && manager == null
      ensures !bleConnected && !serialPortOpen && baudRate == Baud(Microbit)
    {
      device := Microbit;
      transport := SerialTransport;
      manager := null;
      bleConnected := false;
      serialPortOpen := false;
      baudRate := Baud(Microbit);
    }

    /** The `baud` getter. */
    function BaudNow(): (r: nat)
      reads this
      ensures r == baudRate
    {
      baudRate
    }

    /** The `eol` getter. */
    function EolNow(): (r: string)
      reads this
      ensures r == Eol(transport, device)
    {
      Eol(transport, device)
    }

    /**
     * `setDevice(name)`: select the board (microbit for an unknown name), set its baud rate, and
     * put the BLE manager, when there is one, in the mode the conditional forwards: the board's
     * own name, so an Uno leaves the manager in the mode "uno" that its `connect` does not know.
     */
    method SetDevice(name: string)
      modifies this, manager
      ensures device == ParseDevice(name) && baudRate == Baud(device)
      ensures transport == old(transport) && manager == old(manager)
      ensures bleConnected == old(bleConnected) && serialPortOpen == old(serialPortOpen)
      ensures manager != null ==>
                (manager.deviceMode == ForwardedModeAsWritten(device) && manager.lineBuf == old(manager.lineBuf)
                 && manager.device == old(manager.device))
    {
      device := ParseDevice(name);
      baudRate := Baud(device);
      if manager != null {
        manager.SetMode(ForwardedModeAsWritten(device));
      }
    }

    /** `setTransport(name)`: only "ble" and "serial" change the transport. */
    method SetTransport(name: string)
      modifies this
      ensures transport == (if ParseTransport(name).Some? then ParseTransport(name).value else old(transport))
      ensures device == old(device) && baudRate == old(baudRate) && manager == old(manager)
      ensures bleConnected == old(bleConnected) && serialPortOpen == old(serialPortOpen)
    {
      if name != "ble" && name != "serial" {
        return;
      }
      transport := ParseTransport(name).value;
    }

    method SetBleManager(m: Ble.BleManager?)
      modifies this
      ensures manager == m
      ensures device == old(device) && transport == old(transport) && baudRate == old(baudRate)
      ensures bleConnected == old(bleConnected) && serialPortOpen == old(serialPortOpen)
    {
      manager := m;
    }

    /** `setBleConnected(v)`: the flag is `!!v`. */
    method SetBleConnected(v: JsValue)
      modifies this
      ensures bleConnected == Truthy(v)
      ensures device == old(device) && transport == old(transport) && baudRate == old(baudRate)
      ensures manager == old(manager) && serialPortOpen == old(serialPortOpen)
    {
      bleConnected := Truthy(v);
    }

    /** `setSerialPortOpen(v)`: the flag is `!!v`. */
    method SetSerialPortOpen(v: JsValue)
      modifies this
      ensures serialPortOpen == Truthy(v)
      ensures device == old(device) && transport == old(transport) && baudRate == old(baudRate)
      ensures manager == old(manager) && bleConnected == old(bleConnected)
    {
      serialPortOpen := Truthy(v);
    }
  }
}
