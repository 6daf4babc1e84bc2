/**
  The state machine of client/src/hooks/useBluetooth.ts: the seven state
  cells, the onError channel and the transitions startScan, stopScan,
  connectToDevice, the gattserverdisconnected listener, the notification
  handler, startSession and stopSession.

  Every Web Bluetooth call is outside the model; what it does is a parameter
  (an `Outcome`: success with a value, or the error it rejects with). Each
  handler runs to completion with those outcomes, except startScan, which is
  split at its `await` so that the scanning state in between is visible.
 */
module BluetoothHook {
  import opened Wrappers
  import opened Frame

  /** A JavaScript Error: its `name` and `message`. */
  datatype Error = Error(name: string, message: string)

  datatype Outcome<+T> = Ok(value: T) | Fail(error: Error)

  /** The name Web Bluetooth gives the rejection of a chooser the user closed. */
  const NotFoundError: string := "NotFoundError"

  const NotAvailable: Error := Error("Error", "Bluetooth is not available in your browser. Please use Chrome, Edge, or Opera.")
  const NoDeviceSelected: Error := Error("Error", "No device selected.")
  const NoGattServer: Error := Error("Error", "Failed to connect to GATT server.")
  const NotConnected: Error := Error("Error", "Please connect to a device first.")

  const StartCommand: seq<byte> := [1]
  const StopCommand: seq<byte> := [0]

  /** A device as requestDevice hands it back; `name` may be missing. */
  datatype PlatformDevice = PlatformDevice(id: string, name: Option<string>)

  /** An entry of `availableDevices`. */
  datatype ListedDevice = ListedDevice(id: string, name: string)

  /** The identity of a characteristic object. */
  datatype Characteristic = Characteristic(handle: nat)

  /** One `writeValue` call: the characteristic and the bytes. */
  datatype Write = Write(target: Characteristic, command: seq<byte>)

  /** What the platform does at each `await` of connectToDevice, in order.
      `server` is true when `device.gatt?.connect()` gives a server object.
      Outcomes after the first failure are never looked at. */
  datatype ConnectOutcomes = ConnectOutcomes(
    request: Outcome<Option<PlatformDevice>>,
    server: Outcome<bool>,
    service: Outcome<()>,
    characteristic: Outcome<Characteristic>,
    notifications: Outcome<()>)

  /** `device.name || "Unknown Device"`: a missing or empty name is replaced. */
  function DisplayName(name: Option<string>): (s: string)
    ensures name.Some? && name.value != "" ==> s == name.value
    ensures name.None? || name.value == "" ==> s == "Unknown Device"
  {
    if name.Some? && name.value != "" then name.value else "Unknown Device"
  }

  /** The catch of startScan: every error but a cancelled chooser goes to onError. */
  function ScanErrors(e: Error): (r: seq<Error>)
    ensures e.name == NotFoundError <==> r == []
    ensures e.name != NotFoundError <==> r == [e]
  {
    if e.name != NotFoundError then [e] else []
  }

  /** The device chosen, when requestDevice resolved with one. */
  function ChosenDevice(p: ConnectOutcomes): Option<PlatformDevice>
  {
    if p.request.Ok? && p.request.value.Some? then p.request.value else None
  }

  /** Whether connectToDevice reaches the three setters (lines 84-86). */
  predicate LinkEstablished(p: ConnectOutcomes)
  {
    ChosenDevice(p).Some? && p.server == Ok(true) && p.service.Ok? && p.characteristic.Ok?
  }

  /** The error connectToDevice hands to onError: that of the first step that
      fails, or none when every step succeeds. */
  function ConnectError(p: ConnectOutcomes): (r: Option<Error>)
    ensures r.None? <==> LinkEstablished(p) && p.notifications.Ok?
  {
    if p.request.Fail? then Some(p.request.error)
    else if p.request.value.None? then Some(NoDeviceSelected)
    else if p.server.Fail? then Some(p.server.error)
    else if !p.server.value then Some(NoGattServer)
    else if p.service.Fail? then Some(p.service.error)
    else if p.characteristic.Fail? then Some(p.characteristic.error)
    else if p.notifications.Fail? then Some(p.notifications.error)
    else None
  }

  function Reports(e: Option<Error>): seq<Error>
  {
    if e.Some? then [e.value] else []
  }

  class Bluetooth {
    var isConnected: bool
    var isScanning: bool
    var availableDevices: seq<ListedDevice>
    var connectedDevice: Option<PlatformDevice>
    var characteristic: Option<Characteristic>
    var accelerationData: Words
    var isSessionActive: bool

    /** Every error passed to onError, oldest first. */
    var reported: seq<Error>
    /** Every `writeValue` call, oldest first. */
    var written: seq<Write>
    /** Ids of the devices a gattserverdisconnected listener was added to. */
    var disconnectWatched: set<string>
    /** Characteristics whose value changes reach handleCharacteristicValueChanged. */
    var subscribed: set<Characteristic>
    /** requestDevice calls of startScan that have not settled yet. */
    var pendingScans: nat

    /** The device, the characteristic and `isConnected` are set together
        (lines 84-86) and cleared together (lines 71-73). */
    ghost predicate Valid()
      reads this`isConnected, this`connectedDevice, this`characteristic
    {
      isConnected == connectedDevice.Some? && isConnected == characteristic.Some?
    }

    constructor ()
      ensures Valid()
      ensures !isConnected && !isScanning && availableDevices == [] && !isSessionActive
      ensures connectedDevice == None && characteristic == None && accelerationData == Words(0, 0, 0)
      ensures reported == [] && written == [] && disconnectWatched == {} && subscribed == {} && pendingScans == 0
    {
      isConnected, isScanning, availableDevices := false, false, [];
      connectedDevice, characteristic := None, None;
      accelerationData, isSessionActive := Words(0, 0, 0), false;
      reported, written, disconnectWatched, subscribed, pendingScans := [], [], {}, {}, 0;
    }

    /** startScan up to its `await`. Without Web Bluetooth the thrown error
        goes to onError and the finally clears `isScanning`; the device list is
        left alone, since the throw comes before it is cleared. */
    method StartScan(bluetoothAvailable: bool)
      requires Valid()
      modifies this`reported, this`isScanning, this`availableDevices, this`pendingScans
      ensures Valid()
      ensures !bluetoothAvailable ==>
        reported == old(reported) + [NotAvailable] && !isScanning &&
        availableDevices == old(availableDevices) && pendingScans == old(pendingScans)
      ensures bluetoothAvailable ==>
        reported == old(reported) && isScanning &&
        availableDevices == [] && pendingScans == old(pendingScans) + 1
      ensures isConnected == old(isConnected) && connectedDevice == old(connectedDevice)
      ensures characteristic == old(characteristic) && isSessionActive == old(isSessionActive)
      ensures accelerationData == old(accelerationData) && written == old(written)
      ensures disconnectWatched == old(disconnectWatched) && subscribed == old(subscribed)
    {
      if !bluetoothAvailable {
        reported := reported + [NotAvailable];
        isScanning := false;
        return;
      }
      isScanning := true;
      availableDevices := [];
      pendingScans := pendingScans + 1;
    }

    /** The rest of startScan, once requestDevice settles: the chosen device is
        listed, a rejection other than a closed chooser goes to onError, and
        `isScanning` ends false either way. */
    method ScanSettled(outcome: Outcome<PlatformDevice>)
      requires Valid() && pendingScans > 0
      modifies this`reported, this`isScanning, this`availableDevices, this`pendingScans
      ensures Valid()
      ensures outcome.Ok? ==>
        availableDevices == old(availableDevices) + [ListedDevice(outcome.value.id, DisplayName(outcome.value.name))] &&
        reported == old(reported)
      ensures outcome.Fail? ==>
        availableDevices == old(availableDevices) && reported == old(reported) + ScanErrors(outcome.error)
      ensures !isScanning && pendingScans == old(pendingScans) - 1
      ensures isConnected == old(isConnected) && connectedDevice == old(connectedDevice)
      ensures characteristic == old(characteristic) && isSessionActive == old(isSessionActive)
      ensures accelerationData == old(accelerationData) && written == old(written)
      ensures disconnectWatched == old(disconnectWatched) && subscribed == old(subscribed)
    {
      match outcome {
        case Ok(device) =>
          availableDevices := availableDevices + [ListedDevice(device.id, DisplayName(device.name))];
        case Fail(e) =>
          if e.name != NotFoundError {
            reported := reported + [e];
          }
      }
      isScanning := false;
      pendingScans := pendingScans - 1;
    }

    /** startScan with nothing else happening while the chooser is open. */
    method StartScanToCompletion(bluetoothAvailable: bool, outcome: Outcome<PlatformDevice>)
      requires Valid()
      modifies this`reported, this`isScanning, this`availableDevices, this`pendingScans
      ensures Valid()
      ensures !isScanning && pendingScans == old(pendingScans)
      ensures bluetoothAvailable && outcome.Ok? ==>
        availableDevices == [ListedDevice(outcome.value.id, DisplayName(outcome.value.name))] &&
        reported == old(reported)
      ensures bluetoothAvailable && outcome.Fail? ==>
        availableDevices == [] && reported == old(reported) + ScanErrors(outcome.error)
      ensures !bluetoothAvailable ==>
        availableDevices == old(availableDevices) && reported == old(reported) + [NotAvailable]
      ensures isConnected == old(isConnected) && isSessionActive == old(isSessionActive)
      ensures connectedDevice == old(connectedDevice) && characteristic == old(characteristic)
      ensures accelerationData == old(accelerationData) && written == old(written)
      ensures disconnectWatched == old(disconnectWatched) && subscribed == old(subscribed)
    {
      StartScan(bluetoothAvailable);
      if bluetoothAvailable {
        ScanSettled(outcome);
      }
    }

    method StopScan()
      requires Valid()
      modifies this`isScanning
      ensures Valid() && !isScanning
    {
      isScanning := false;
    }

    /** connectToDevice. `deviceId` is ignored: the platform chooser picks the
        device again. Once a device is chosen it gets a disconnect listener;
        the connection fields are set only after the characteristic is found,
        and before notifications start, so a failure there leaves the hook
        connected while the error is still reported. A chooser closed here is
        reported too (this catch does not filter NotFoundError). */
    method ConnectToDevice(deviceId: string, p: ConnectOutcomes)
      requires Valid()
      modifies this`reported, this`isScanning, this`disconnectWatched
      modifies this`connectedDevice, this`characteristic, this`isConnected, this`subscribed
      ensures Valid()
      ensures reported == old(reported) + Reports(ConnectError(p))
      ensures LinkEstablished(p) ==>
        isConnected && connectedDevice == ChosenDevice(p) && characteristic == Some(p.characteristic.value)
      ensures !LinkEstablished(p) ==>
        isConnected == old(isConnected) && connectedDevice == old(connectedDevice) &&
        characteristic == old(characteristic)
      ensures ChosenDevice(p).Some? ==>
        !isScanning && disconnectWatched == old(disconnectWatched) + {ChosenDevice(p).value.id}
      ensures ChosenDevice(p).None? ==>
        isScanning == old(isScanning) && disconnectWatched == old(disconnectWatched)
      ensures subscribed == old(subscribed) +
        (if LinkEstablished(p) && p.notifications.Ok? then {p.characteristic.value} else {})
      ensures isSessionActive == old(isSessionActive) && accelerationData == old(accelerationData)
      ensures availableDevices == old(availableDevices) && written == old(written)
      ensures pendingScans == old(pendingScans)
    {
      if p.request.Fail? {
        reported := reported + [p.request.error];
        return;
      }
      if p.request.value.None? {
        reported := reported + [NoDeviceSelected];
        return;
      }
      var device := p.request.value.value;
      isScanning := false;
      disconnectWatched := disconnectWatched + {device.id};
      if p.server.Fail? {
        reported := reported + [p.server.error];
        return;
      }
      if !p.server.value {
        reported := reported + [NoGattServer];
        return;
      }
      if p.service.Fail? {
        reported := reported + [p.service.error];
        return;
      }
      if p.characteristic.Fail? {
        reported := reported + [p.characteristic.error];
        return;
      }
      var ch := p.characteristic.value;
      connectedDevice := Some(device);
      characteristic := Some(ch);
      isConnected := true;
      if p.notifications.Fail? {
        reported := reported + [p.notifications.error];
        return;
      }
      subscribed := subscribed + {ch};
    }

    /** The gattserverdisconnected listener: the link fields are cleared, and
        `isSessionActive` is left as it was. A device without a listener
        changes nothing. */
    method GattServerDisconnected(deviceId: string)
      requires Valid()
      modifies this`isConnected, this`connectedDevice, this`characteristic
      ensures Valid()
      ensures deviceId in disconnectWatched ==> !isConnected && connectedDevice == None && characteristic == None
      ensures deviceId !in disconnectWatched ==>
        isConnected == old(isConnected) && connectedDevice == old(connectedDevice) &&
        characteristic == old(characteristic)
      ensures isSessionActive == old(isSessionActive) && isScanning == old(isScanning)
      ensures accelerationData == old(accelerationData) && availableDevices == old(availableDevices)
      ensures reported == old(reported) && written == old(written) && pendingScans == old(pendingScans)
      ensures disconnectWatched == old(disconnectWatched) && subscribed == old(subscribed)
    {
      if deviceId in disconnectWatched {
        isConnected := false;
        connectedDevice := None;
        characteristic := None;
      }
    }

    /** handleCharacteristicValueChanged for an event on `target` whose value's
        backing buffer holds `buffer` (null when there is no value). A frame
        that decodes replaces `accelerationData` whole; one that does not is
        only logged, so nothing changes and nothing reaches onError. */
    method CharacteristicValueChanged(target: Characteristic, buffer: Option<seq<byte>>)
      requires Valid()
      modifies this`accelerationData
      ensures Valid()
      ensures accelerationData ==
        if target in subscribed && buffer.Some? && DecodeFrame(buffer.value).Some?
        then DecodeFrame(buffer.value).value else old(accelerationData)
    {
      if target in subscribed && buffer.Some? {
        var decoded := DecodeFrame(buffer.value);
        if decoded.Some? {
          accelerationData := decoded.value;
        }
      }
    }

    /** startSession: without a connection the error goes to onError and
        nothing else happens; otherwise the session becomes active and the
        byte 1 is written. A failed write is reported and changes nothing else. */
    method StartSession(write: Outcome<()>)
      requires Valid()
      modifies this`isSessionActive, this`written, this`reported
      ensures Valid()
      ensures !isConnected ==>
        reported == old(reported) + [NotConnected] &&
        written == old(written) && isSessionActive == old(isSessionActive)
      ensures isConnected ==>
        isSessionActive && written == old(written) + [Write(characteristic.value, StartCommand)] &&
        reported == old(reported) + (if write.Fail? then [write.error] else [])
    {
      if !isConnected || characteristic.None? {
        reported := reported + [NotConnected];
        return;
      }
      isSessionActive := true;
      written := written + [Write(characteristic.value, StartCommand)];
      if write.Fail? {
        reported := reported + [write.error];
      }
    }

    /** stopSession: a silent no-op without a connection; otherwise the
        session stops and the byte 0 is written. */
    method StopSession(write: Outcome<()>)
      requires Valid()
      modifies this`isSessionActive, this`written, this`reported
      ensures Valid()
      ensures !isConnected ==>
        reported == old(reported) && written == old(written) && isSessionActive == old(isSessionActive)
      ensures isConnected ==>
        !isSessionActive && written == old(written) + [Write(characteristic.value, StopCommand)] &&
        reported == old(reported) + (if write.Fail? then [write.error] else [])
    {
      if !isConnected || characteristic.None? {
        return;
      }
      isSessionActive := false;
      written := written + [Write(characteristic.value, StopCommand)];
      if write.Fail? {
        reported := reported + [write.error];
      }
    }
  }
}
