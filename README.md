# BLE scan session of AndroidSmartDevice

The scan screen of AndroidSmartDevice (`ScanActivity`) discovers nearby Bluetooth
Low-Energy peripherals. Its one piece of logic is the bookkeeping of a scan session.
The session has three parts:

- `devices`, the ordered list of discovered devices;
- `seenAddresses`, the list of addresses already admitted, kept in step with `devices`;
- `isScanning`, the scanning flag.

Three things change that state:

- the start/stop button;
- the single-result scan callback, `onScanResult`;
- the batch scan callback, `onBatchScanResults`.

A result is admitted at most once per address, at the end of both lists. The first
sighting of an address wins, and a later result with the same address (a new name, say)
is dropped.

This project models that session in Dafny. There are three modules:

- `Devices` (`devices.dfy`): a device as `(address, optional name)`; the name fallback
  shown on a device card; the address list of a device list.
- `SessionSpec` (`session_spec.dfy`): the session as a value (`SessionState`). It has
  one transition function per event:
  - `Press`, the button;
  - `Admit`, one result;
  - `AdmitAll`, a batch;
  - `Step` and `Run`, for any event and any sequence of events.

  The module also holds the session invariant `Inv` and the lemmas about all of these.
- `ScanScreen` (`scan_screen.dfy`): class `Session`. Its three fields are updated in
  place by `PressButton`, `OnScanResult` and `OnBatchScanResults`, which has a loop like
  the source's. Each method is proved to perform the matching `SessionSpec` transition.
  So the lemmas about `Run` hold for every sequence of calls on the class.

Three behaviours of the code are reproduced as written:

- The stop request never stops the scan. `stopScan` passes a new, empty callback object
  to the radio. The callback registered by `startScan` is never stored. So the scan it
  started keeps delivering results for the life of the screen, and each new start
  registers one more live callback feeding the same two lists. In the model, a delivered
  result is an event like any other, at any time, and it goes through the same rule.
- Neither scan callback looks at `isScanning`. A result delivered after the user pressed
  stop is admitted (`LateResultAdmitted`, `AdmitIgnoresFlag`, `AdmitAllIgnoresFlag`).
- The 10-second auto-stop issues the same ineffective stop request and never clears
  `isScanning`. The session keeps saying "scanning", and later results are still
  admitted (`AutoStopKeepsScanning`).

Some further facts about the code shape the model:

- A refused permission only shows a message; nothing else happens.
- When the device has no scanner, the radio call is skipped. The button still clears the
  lists and sets `isScanning`.
- There is one toggle button, not separate start and stop commands. Pressing it while
  scanning issues the ineffective stop request and clears `isScanning`. Pressing it while
  idle clears both lists, registers one more scan callback and sets `isScanning`.
- A scan failure reported by the radio only shows a message. The session keeps
  scanning, and later results are still admitted (`ScanFailedKeepsScanning`).

## Model

| member | source | states |
|---|---|---|
| Devices.DisplayName | app/src/main/java/fr/isen/roisin/androidsmartdevice/ScanActivity.kt:113 | the card shows the advertised name when the device has one, and "Nom inconnu" otherwise |
| SessionSpec.Admit | app/src/main/java/fr/isen/roisin/androidsmartdevice/ScanActivity.kt:142-148 | admitting one result keeps the session invariant, so `seenAddresses` stays the duplicate-free address list of `devices`; it never changes the scanning flag |
| SessionSpec.Press | app/src/main/java/fr/isen/roisin/androidsmartdevice/ScanActivity.kt:79-88 | the button flips the flag; from scanning both lists are kept; from idle both lists are empty; the invariant is kept |
| SessionSpec.AdmitAll | app/src/main/java/fr/isen/roisin/androidsmartdevice/ScanActivity.kt:150-158 | a batch is single-result ingestion applied to each result in order; it adds at most one device per result, never removes one, and leaves the flag as it was |
| SessionSpec.AdmitAllSnoc | app/src/main/java/fr/isen/roisin/androidsmartdevice/ScanActivity.kt:150-157 | handling a batch and then one more result equals handling the longer batch, i.e. the batch loop is single-result ingestion applied in order |
| SessionSpec.AdmitAllAppend | app/src/main/java/fr/isen/roisin/androidsmartdevice/ScanActivity.kt:150-157 | two batches in a row give the same state as one batch holding both |
| SessionSpec.AdmitAllKeepsInv | app/src/main/java/fr/isen/roisin/androidsmartdevice/ScanActivity.kt:150-158 | a batch keeps `seenAddresses` equal to the addresses of `devices`, in order, without duplicates, even when the batch repeats an address |
| SessionSpec.AdmitAllOnlyAppends | app/src/main/java/fr/isen/roisin/androidsmartdevice/ScanActivity.kt:150-158 | ingestion only appends: the old `devices` and `seenAddresses` are prefixes of the new ones, so earlier devices stay ahead with their names, and the flag is unchanged |
| SessionSpec.AdmitAllSeen | app/src/main/java/fr/isen/roisin/androidsmartdevice/ScanActivity.kt:150-158 | after a batch an address is seen if and only if it was seen before or the batch carries it |
| SessionSpec.AdmitAllFirstSeen | app/src/main/java/fr/isen/roisin/androidsmartdevice/ScanActivity.kt:150-158 | every device a batch adds is a result of the batch whose address was not seen before, and it is the first result of the batch with that address |
| SessionSpec.Step | app/src/main/java/fr/isen/roisin/androidsmartdevice/ScanActivity.kt:79-167 | the button, a result, a batch, the timer and a scan failure; only the button changes the flag, and the timer and the failure change nothing |
| SessionSpec.StepKeepsInv | app/src/main/java/fr/isen/roisin/androidsmartdevice/ScanActivity.kt:79-167 | the button, a result, a batch, the auto-stop and a scan failure each keep the session invariant |
| SessionSpec.RunKeepsInv | app/src/main/java/fr/isen/roisin/androidsmartdevice/ScanActivity.kt:79-167 | after any sequence of events, each address is listed at most once and `seenAddresses` mirrors `devices` |
| SessionSpec.RunWithoutPressOnlyAppends | app/src/main/java/fr/isen/roisin/androidsmartdevice/ScanActivity.kt:141-167 | only the button clears the list: without a press, the listed devices stay a prefix and the flag does not change |
| SessionSpec.RunSeen | app/src/main/java/fr/isen/roisin/androidsmartdevice/ScanActivity.kt:141-167 | with no press, an address is seen after a run of events if and only if it was seen before or some delivered result carries it |
| SessionSpec.CountSinceStart | app/src/main/java/fr/isen/roisin/androidsmartdevice/ScanActivity.kt:79-158 | after a start and any events short of the next press, the list has one entry per distinct address sighted since the start; it is non-empty exactly when some result was delivered |
| SessionSpec.AdmitIgnoresFlag | app/src/main/java/fr/isen/roisin/androidsmartdevice/ScanActivity.kt:142-148 | a single result gives the same lists whatever the scanning flag, and leaves the flag as it was |
| SessionSpec.AdmitAllIgnoresFlag | app/src/main/java/fr/isen/roisin/androidsmartdevice/ScanActivity.kt:150-158 | batch ingestion gives the same lists whatever the scanning flag, so results delivered after a stop are admitted |
| SessionSpec.RenameIgnored | app/src/main/java/fr/isen/roisin/androidsmartdevice/ScanActivity.kt:142-158 | start, a batch of two sensors, then the first sensor renamed: the list holds both sensors with their first names |
| SessionSpec.LateResultAdmitted | app/src/main/java/fr/isen/roisin/androidsmartdevice/ScanActivity.kt:79-148 | start, stop, then a result: the result is admitted and the flag stays cleared |
| SessionSpec.ScanFailedKeepsScanning | app/src/main/java/fr/isen/roisin/androidsmartdevice/ScanActivity.kt:160-162 | start, then a scan failure with code 2, then a result: the session still scans and the result is admitted |
| SessionSpec.AutoStopKeepsScanning | app/src/main/java/fr/isen/roisin/androidsmartdevice/ScanActivity.kt:165-167 | start, then the auto-stop fires: the flag still says scanning and a later result is still admitted |
| ScanScreen.Session.constructor | app/src/main/java/fr/isen/roisin/androidsmartdevice/ScanActivity.kt:44-46 | the screen starts idle with both lists empty |
| ScanScreen.Session.Count | app/src/main/java/fr/isen/roisin/androidsmartdevice/ScanActivity.kt:96 | the count in the heading is the length of the list; it equals the number of addresses seen and the number of distinct addresses among them |
| ScanScreen.Session.PressButton | app/src/main/java/fr/isen/roisin/androidsmartdevice/ScanActivity.kt:79-88 | performs `Press`: from scanning the flag is cleared and the lists are kept; from idle both lists are emptied and the flag is set; the invariant is kept |
| ScanScreen.Session.OnScanResult | app/src/main/java/fr/isen/roisin/androidsmartdevice/ScanActivity.kt:142-148 | performs `Admit`: a new address appends exactly that device and its address at the ends; a seen address leaves both lists unchanged; the flag is not consulted or changed |
| ScanScreen.Session.OnBatchScanResults | app/src/main/java/fr/isen/roisin/androidsmartdevice/ScanActivity.kt:150-158 | performs `AdmitAll`: the loop gives the state of feeding each result in order to single-result ingestion; the old lists are prefixes of the new ones |
| ScanScreen.Session.AutoStop | app/src/main/java/fr/isen/roisin/androidsmartdevice/ScanActivity.kt:165-167 | the timer leaves the lists and the scanning flag as they are |

## Left out

- The Bluetooth calls: `BluetoothLeScanner.startScan`, `stopScan` and the `ScanResult` wrapper. Each result is a `Device` value passed as an argument, and the radio calls change no modelled state. Which callbacks are registered, and how many, is not modelled. Every delivered result is one ingestion event.
- The model assumes the radio calls return normally. If `startScan` throws (for instance for a missing scan permission on a recent platform), the lists are already cleared and the flag is not set. That path is not modelled.
- The `Handler.postDelayed` scheduling of the auto-stop. The timer firing is the method `Session.AutoStop` and the event `AutoStop`. It changes nothing, as in the code.
- `onScanFailed`: it only shows a message. It is the event `ScanFailed(code)`, which changes nothing. The class has no method for it.
- The threading of scan callbacks: each callback is one atomic step.
- The permission launcher, the toasts, the `Intent` to the device screen and all Compose layout, including the status and button labels. These are UI and I/O.
- Names are taken as they stand when a device is admitted. The platform's device object can report a different name later, when a card is redrawn. That is not modelled.
- `MainActivity.kt` is not part of this model. It only checks for the Bluetooth adapter, shows a dialog and navigates.
- `DeviceActivity.kt` is not part of this model. It only shows the name and address it receives, plus three buttons that show messages.
