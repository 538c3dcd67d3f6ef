# CTS harness logic in Dafny

A model of four small pieces of logic from the Android Compatibility Test Suite's
own harness code. The logic is stated as pure functions over immutable data, and
properties of it are proved.

- **Manifest layout checks** (`ManifestLayout`, `manifest_layout.dfy`). These
  cover the activity-manager host-side test for activities whose manifest
  declares a gravity and a default size:
  - the dp-to-px conversion;
  - the expected window size, either fixed in dp or a quarter of the display's
    app rectangle;
  - the size and gravity-anchoring check of the window's containing frame;
  - the 80dp minimal-size rule;
  - selection of the single window of the activity from the window manager's
    state;
  - the test methods, which yield the commands sent and the verdict.
- **Device-admin test base** (`DeviceAdmin`, `device_admin.dfy`; `Decimal`,
  `decimal.dfy`). This covers the host-side device-admin tests:
  - the APK, package and receiver-component names built for a target API
    version;
  - `runTests` qualifying a class name;
  - `setUp`, and the two flags that decide which clean-up commands `tearDown`
    sends and in what order;
  - `makeDoAndClearPassword` and the three test methods with their
    `try`/`finally` flows;
  - a JUnit 3 test case run.

  Each remote call is a `Command` appended to a log. The device's replies come
  from a script. A small enrolment model (not enrolled, admin, owner) shows
  what the calls do to the device.
- **Connection-service forwarding slot** (`ConnectionService`,
  `connection_service.dfy`). This is the telecom test app's single
  ConnectionService:
  - the guarded `setUp` of the test's service;
  - the unconditional `tearDown`;
  - forwarding of the four framework callbacks to the installed service, or to
    the mock fallback;
  - the outbound helpers that go to the instance telecom constructed;
  - what any history of these operations leaves in the slot.
- **GNSS measurement listener** (`GnssListener`, `gnss_listener.dfy`). This is
  the location test's measurement listener:
  - the constructors;
  - the measurement and status callbacks with their countdown latch;
  - `verifyState`;
  - sequences of callbacks, and when `await` can succeed.

`wrappers.dfy` holds the `Option` and `Result` types.

## Model

| member | source | states |
|---|---|---|
| ManifestLayout.TruncDiv | hostsidetests/services/activitymanager/src/android/server/cts/ActivityManagerManifestLayoutTests.java:132-133 | Java's `(int)` cast of a quotient truncates toward zero: for a non-negative dividend the result q satisfies q·b ≤ a < q·b + b, and for a negative one q·b − b < a ≤ q·b with q ≤ 0 |
| ManifestLayout.DpToPx | hostsidetests/services/activitymanager/src/android/server/cts/ActivityManagerManifestLayoutTests.java:186-188 | for a non-negative dp·dpi, the result px is non-negative and px·160 − 80 ≤ dp·dpi < px·160 + 80: the nearest whole pixel count, with a half rounded up |
| ManifestLayout.DpToPxIsNearest | hostsidetests/services/activitymanager/src/android/server/cts/ActivityManagerManifestLayoutTests.java:186-188 | converse of the bound: any non-negative px in that half-pixel window is exactly what the conversion returns, so the rounding is unique |
| ManifestLayout.DpToPxExamples | hostsidetests/services/activitymanager/src/android/server/cts/ActivityManagerManifestLayoutTests.java:186-188 | 160dp at 160dpi is 160px, 80dp at 160dpi is 80px, 80dp at 240dpi is 120px, and 1dp at 80dpi rounds its half up to 1 |
| ManifestLayout.ExpectedSize | hostsidetests/services/activitymanager/src/android/server/cts/ActivityManagerManifestLayoutTests.java:131-138 | in fraction mode each side is the floor of a quarter of the app rectangle's side (4·s ≤ dim < 4·s + 4); otherwise both sides are 160dp converted at the display's density |
| ManifestLayout.ExpectedSizeExamples | hostsidetests/services/activitymanager/src/android/server/cts/ActivityManagerManifestLayoutTests.java:131-138 | a 1000×1000 or 1003×1001 app rectangle gives 250×250 in fraction mode; the dp mode gives 160×160 at 160dpi and 320×320 at 320dpi |
| ManifestLayout.VerifyFrameSizeAndPosition | hostsidetests/services/activitymanager/src/android/server/cts/ActivityManagerManifestLayoutTests.java:165-184 | passes iff width and height equal the expected values and the frame is anchored on both axes as its gravity demands; a wrong width is always the reported failure; every reported failure has expected ≠ actual |
| ManifestLayout.TopLeftFrameIsDetermined | hostsidetests/services/activitymanager/src/android/server/cts/ActivityManagerManifestLayoutTests.java:171-179 | top/left gravity passes iff the frame is exactly the expected size at the parent's top-left corner |
| ManifestLayout.BottomRightFrameIsDetermined | hostsidetests/services/activitymanager/src/android/server/cts/ActivityManagerManifestLayoutTests.java:173-182 | bottom/right gravity passes iff the frame is exactly the expected size ending at the parent's bottom-right corner |
| ManifestLayout.CenterImposesNoConstraint | hostsidetests/services/activitymanager/src/android/server/cts/ActivityManagerManifestLayoutTests.java:171-183 | with gravity other than top/bottom and left/right, moving the frame never changes the outcome |
| ManifestLayout.AxesAreIndependent | hostsidetests/services/activitymanager/src/android/server/cts/ActivityManagerManifestLayoutTests.java:171-183 | a frame of the right size passes iff the vertical check alone and the horizontal check alone both pass |
| ManifestLayout.VerifyMinimalSize | hostsidetests/services/activitymanager/src/android/server/cts/ActivityManagerManifestLayoutTests.java:102-107 | passes iff the shorter side of the frame equals 80dp converted at the display's density; a failure reports that floor as expected and a different actual value |
| ManifestLayout.MinimalSizeAtDefaultDensity | hostsidetests/services/activitymanager/src/android/server/cts/ActivityManagerManifestLayoutTests.java:102-107 | at 160dpi a frame with a side under 80px fails the minimal-size rule |
| ManifestLayout.MatchingWindows | hostsidetests/services/activitymanager/src/android/server/cts/ActivityManagerManifestLayoutTests.java:153 | every window returned carries the name and comes from the state's window list, and every window of the list that carries the name is returned |
| ManifestLayout.MatchingWindowsInOrder | hostsidetests/services/activitymanager/src/android/server/cts/ActivityManagerManifestLayoutTests.java:153 | the matches are exactly the named windows in list order: as many as the list holds, and the window at position j is the match whose index counts the named windows before j |
| ManifestLayout.MatchingWindowsSingleton | hostsidetests/services/activitymanager/src/android/server/cts/ActivityManagerManifestLayoutTests.java:153-158 | exactly one match means exactly one window of that name exists, and it is the one returned; conversely a unique window is the whole match list |
| ManifestLayout.MatchingWindowsEmpty | hostsidetests/services/activitymanager/src/android/server/cts/ActivityManagerManifestLayoutTests.java:153-156 | the match list is empty iff no window carries the name |
| ManifestLayout.GetDisplayAndWindowState | hostsidetests/services/activitymanager/src/android/server/cts/ActivityManagerManifestLayoutTests.java:144-163 | on success the selected window carries the name, is in the state, and its display id resolves to the returned display |
| ManifestLayout.SelectionSucceedsIffUnique | hostsidetests/services/activitymanager/src/android/server/cts/ActivityManagerManifestLayoutTests.java:151-162 | selection succeeds iff the named window is focused, is the only window of that name, and its display id names a display; it then returns that window and display |
| ManifestLayout.DuplicateNameFails | hostsidetests/services/activitymanager/src/android/server/cts/ActivityManagerManifestLayoutTests.java:155-156 | two windows with the activity's name make selection fail |
| ManifestLayout.ActivityName | hostsidetests/services/activitymanager/src/android/server/cts/ActivityManagerManifestLayoutTests.java:117-118 | the name starts with 'T' iff the vertical gravity is top; the letter after the vertical word is 'L' iff the horizontal gravity is left; every name ends in "LayoutActivity" |
| ManifestLayout.ActivityNamesDistinct | hostsidetests/services/activitymanager/src/android/server/cts/ActivityManagerManifestLayoutTests.java:117-118 | the four top/bottom × left/right combinations give four distinct activity names |
| ManifestLayout.TestLayout | hostsidetests/services/activitymanager/src/android/server/cts/ActivityManagerManifestLayoutTests.java:110-142 | without freeform support the test is skipped and sends nothing; otherwise it launches the named activity in the freeform stack, and it passes iff selection succeeds and the frame has the expected size and the gravity's anchoring within the app rectangle |
| ManifestLayout.AbsoluteLayoutExamples | hostsidetests/services/activitymanager/src/android/server/cts/ActivityManagerManifestLayoutTests.java:60-74 | on a 160dpi display with app rectangle (0,0,1000,1000), the top-left test passes iff the window is at (0,0) sized 160×160, and the bottom-right test iff it is at (840,840) |
| ManifestLayout.TestMinimalSize | hostsidetests/services/activitymanager/src/android/server/cts/ActivityManagerManifestLayoutTests.java:76-108 | only the freeform variant is skipped without freeform support; freeform launches and resizes the task to (0,0,1,1), docked launches in the dock stack and resizes it to 1,1,1,1; the test passes iff selection succeeds and the minimal-size rule holds |
| DeviceAdmin.ApkFileName | hostsidetests/devicepolicy/src/com/android/cts/devicepolicy/BaseDeviceAdminHostSideTest.java:49-51 | the file name is "CtsDeviceAdminApp", then the decimal version, then ".apk" |
| DeviceAdmin.ApkPackage | hostsidetests/devicepolicy/src/com/android/cts/devicepolicy/BaseDeviceAdminHostSideTest.java:54-56 | the package is the Java package followed by the decimal version, with no slash in it |
| DeviceAdmin.QualifiedInjective | hostsidetests/devicepolicy/src/com/android/cts/devicepolicy/BaseDeviceAdminHostSideTest.java:106-110 | qualifying class names with the Java package keeps distinct classes distinct |
| DeviceAdmin.Qualified | hostsidetests/devicepolicy/src/com/android/cts/devicepolicy/BaseDeviceAdminHostSideTest.java:106-110 | a qualified name is the Java package, a dot, then the class name |
| DeviceAdmin.ReceiverComponent | hostsidetests/devicepolicy/src/com/android/cts/devicepolicy/BaseDeviceAdminHostSideTest.java:62-74 | a receiver component is the app's package, then a slash, then the receiver class qualified by the Java package; the part before the slash is exactly the package |
| DeviceAdmin.AdminReceiverComponent | hostsidetests/devicepolicy/src/com/android/cts/devicepolicy/BaseDeviceAdminHostSideTest.java:62-65 | the admin receiver's component names the app's package and the qualified admin receiver class |
| DeviceAdmin.UnprotectedAdminReceiverComponent | hostsidetests/devicepolicy/src/com/android/cts/devicepolicy/BaseDeviceAdminHostSideTest.java:71-74 | the unprotected receiver's component names the app's package and the qualified unprotected receiver class |
| DeviceAdmin.ReceiversDistinct | hostsidetests/devicepolicy/src/com/android/cts/devicepolicy/BaseDeviceAdminHostSideTest.java:62-74 | both receiver components lie in the same package but are different components |
| Decimal.IntToString | hostsidetests/devicepolicy/src/com/android/cts/devicepolicy/BaseDeviceAdminHostSideTest.java:49-56 | Java's decimal rendering of the version: at least one character, a leading '-' iff the value is negative, and otherwise only digits |
| DeviceAdmin.NamesDistinguishVersions | hostsidetests/devicepolicy/src/com/android/cts/devicepolicy/BaseDeviceAdminHostSideTest.java:49-56 | different API versions give different APK file names and different packages |
| DeviceAdmin.NamesForVersion24 | hostsidetests/devicepolicy/src/com/android/cts/devicepolicy/BaseDeviceAdminHostSideTest.java:48-60 | for version 24: "CtsDeviceAdminApp24.apk", "com.android.cts.deviceadmin24", and an admin component in that package |
| DeviceAdmin.RunTests | hostsidetests/devicepolicy/src/com/android/cts/devicepolicy/BaseDeviceAdminHostSideTest.java:106-110 | runs the qualified class in the given package, with the given method and for the fixture's user |
| DeviceAdmin.RunTestClass | hostsidetests/devicepolicy/src/com/android/cts/devicepolicy/BaseDeviceAdminHostSideTest.java:112-115 | the two-argument form runs the qualified class with no method selected |
| DeviceAdmin.CheckedCallsStopAtFailure | hostsidetests/devicepolicy/src/com/android/cts/devicepolicy/BaseDeviceAdminHostSideTest.java:136-147 | in a sequence of asserted calls, every call before the last one made succeeded; if every reply is success, all calls are made and succeed |
| DeviceAdmin.CheckedCallsRaiseIff | hostsidetests/devicepolicy/src/com/android/cts/devicepolicy/BaseDeviceAdminHostSideTest.java:136-147 | a run of asserted calls raises exactly when one of its calls failed |
| DeviceAdmin.IssueCheckedRaisedIff | hostsidetests/devicepolicy/src/com/android/cts/devicepolicy/BaseDeviceAdminHostSideTest.java:136-147 | asserted calls are appended after the earlier log, and the run raises exactly when one of the appended calls failed |
| DeviceAdmin.ThreeRunsVerdict | hostsidetests/devicepolicy/src/com/android/cts/devicepolicy/BaseDeviceAdminHostSideTest.java:160-165 | three asserted runs in a row, each with the replies the previous left, raise somewhere exactly when one of the calls they appended failed |
| DeviceAdmin.SetUp | hostsidetests/devicepolicy/src/com/android/cts/devicepolicy/BaseDeviceAdminHostSideTest.java:76-89 | both flags are cleared and the user is the primary user; without the feature nothing is sent; with it, unless a call failed, the app is installed and then its receiver enrolled as admin |
| DeviceAdmin.SetUpVerdict | hostsidetests/devicepolicy/src/com/android/cts/devicepolicy/BaseDeviceAdminHostSideTest.java:85-88 | setUp's log holds at most its two calls; it raises exactly when one of them failed, and then the last one failed |
| DeviceAdmin.TearDownCommands | hostsidetests/devicepolicy/src/com/android/cts/devicepolicy/BaseDeviceAdminHostSideTest.java:91-104 | without the feature nothing is sent; with it the last command is always the uninstall of the app's package |
| DeviceAdmin.TearDownSchedule | hostsidetests/devicepolicy/src/com/android/cts/devicepolicy/BaseDeviceAdminHostSideTest.java:93-101 | the owner clean-up is sent iff its flag is set, and the admin clean-up iff its flag is set; owner comes before admin; with neither flag only the uninstall is sent |
| DeviceAdmin.TearDown | hostsidetests/devicepolicy/src/com/android/cts/devicepolicy/BaseDeviceAdminHostSideTest.java:91-104 | every clean-up command is sent whatever the device replies |
| DeviceAdmin.TearDownExtends | hostsidetests/devicepolicy/src/com/android/cts/devicepolicy/BaseDeviceAdminHostSideTest.java:91-104 | tearDown only appends, one call per scheduled clean-up command |
| DeviceAdmin.MakeDoAndClearPasswordCommands | hostsidetests/devicepolicy/src/com/android/cts/devicepolicy/BaseDeviceAdminHostSideTest.java:136-147 | four commands: promotion of the admin receiver to owner first, re-enrolment of it as admin for the fixture's user last, and device-side test runs of the app's package for that user between them |
| DeviceAdmin.MakeDoAndClearPassword | hostsidetests/devicepolicy/src/com/android/cts/devicepolicy/BaseDeviceAdminHostSideTest.java:136-147 | the promotion to owner is always the first call; unless a call fails, the commands are promote, clear password, clear owner, re-enrol admin, in that order |
| DeviceAdmin.MakeDoAndClearPasswordReenrols | hostsidetests/devicepolicy/src/com/android/cts/devicepolicy/BaseDeviceAdminHostSideTest.java:136-147 | whatever the enrolment before, the four commands leave the receiver owner after the first and admin after the last |
| DeviceAdmin.MakeDoAndClearPasswordRestoresAdmin | hostsidetests/devicepolicy/src/com/android/cts/devicepolicy/BaseDeviceAdminHostSideTest.java:136-147 | when every call succeeds, an admin becomes owner after the first call and is admin again at the end |
| DeviceAdmin.DeviceAdminPasswordTest | hostsidetests/devicepolicy/src/com/android/cts/devicepolicy/BaseDeviceAdminHostSideTest.java:152-166 | the admin password test schedules the admin clean-up |
| DeviceAdmin.DeviceOwnerPasswordTest | hostsidetests/devicepolicy/src/com/android/cts/devicepolicy/BaseDeviceAdminHostSideTest.java:175-192 | the owner password test schedules the owner clean-up |
| DeviceAdmin.RunScenario | hostsidetests/devicepolicy/src/com/android/cts/devicepolicy/BaseDeviceAdminHostSideTest.java:120-129 | without the feature a test method changes nothing and sends nothing |
| DeviceAdmin.AdminTestVerdict | hostsidetests/devicepolicy/src/com/android/cts/devicepolicy/BaseDeviceAdminHostSideTest.java:120-129 | the admin test schedules nothing else, sends exactly one DeviceAdminTest run, and fails iff that run failed |
| DeviceAdmin.AdminPasswordTestVerdict | hostsidetests/devicepolicy/src/com/android/cts/devicepolicy/BaseDeviceAdminHostSideTest.java:152-166 | the admin password test fails iff one of its calls failed, so a failed device-side test fails it even when both clearings succeed |
| DeviceAdmin.OwnerPasswordTestVerdict | hostsidetests/devicepolicy/src/com/android/cts/devicepolicy/BaseDeviceAdminHostSideTest.java:175-192 | the owner password test fails iff one of its calls failed, so a failed owner test fails it even when the clearing in `finally` succeeds |
| DeviceAdmin.ScenarioVerdict | hostsidetests/devicepolicy/src/com/android/cts/devicepolicy/BaseDeviceAdminHostSideTest.java:120-192 | every test method only appends calls, and raises exactly when one of the calls it appended failed |
| DeviceAdmin.FlagsIndependentOfReplies | hostsidetests/devicepolicy/src/com/android/cts/devicepolicy/BaseDeviceAdminHostSideTest.java:120-192 | the flag each test sets does not depend on any reply: the owner test schedules the owner clean-up, the others schedule the admin clean-up |
| DeviceAdmin.PasswordClearedAgainInFinally | hostsidetests/devicepolicy/src/com/android/cts/devicepolicy/BaseDeviceAdminHostSideTest.java:160-165 | once the first password clearing succeeded, the device-side password test runs and is followed by a second promotion to owner, whatever the test's outcome |
| DeviceAdmin.OwnerPasswordClearedInFinally | hostsidetests/devicepolicy/src/com/android/cts/devicepolicy/BaseDeviceAdminHostSideTest.java:182-191 | once promotion and the first clearing succeeded, the owner test is followed by a second password clearing, whatever its outcome |
| DeviceAdmin.RunTestCase | hostsidetests/devicepolicy/src/com/android/cts/devicepolicy/BaseDeviceAdminHostSideTest.java:76-104 | without the feature a test case sends nothing and passes |
| DeviceAdmin.SetUpFailureSkipsTest | hostsidetests/devicepolicy/src/com/android/cts/devicepolicy/BaseDeviceAdminHostSideTest.java:76-89 | a failing setUp fails the test case and skips the test method and tearDown: at most the two setUp calls are made, the last one failed |
| DeviceAdmin.TestAndTearDownVerdict | hostsidetests/devicepolicy/src/com/android/cts/devicepolicy/BaseDeviceAdminHostSideTest.java:91-192 | after setUp, the test method only appends and raises iff one of its calls failed; tearDown then appends exactly two calls |
| DeviceAdmin.TestCaseVerdict | hostsidetests/devicepolicy/src/com/android/cts/devicepolicy/BaseDeviceAdminHostSideTest.java:76-192 | once setUp succeeded, a test case fails iff some call other than tearDown's last two failed; the replies to tearDown's calls never decide the verdict |
| DeviceAdmin.CleanupAlwaysIssued | hostsidetests/devicepolicy/src/com/android/cts/devicepolicy/BaseDeviceAdminHostSideTest.java:91-101 | once setUp has succeeded, every test case ends with its clean-up test and the uninstall, whatever the device replied during the test |
| DeviceAdmin.SetUpCommandsFirst | hostsidetests/devicepolicy/src/com/android/cts/devicepolicy/BaseDeviceAdminHostSideTest.java:85-88 | once setUp has succeeded, the log of a test case begins with the install and the admin enrolment |
| DeviceAdmin.ScenarioExtendsLog | hostsidetests/devicepolicy/src/com/android/cts/devicepolicy/BaseDeviceAdminHostSideTest.java:120-192 | a test method only appends calls to those made before it |
| DeviceAdmin.AllSucceedRun | hostsidetests/devicepolicy/src/com/android/cts/devicepolicy/BaseDeviceAdminHostSideTest.java:76-192 | against a device that answers every call with success, each test case passes and sends exactly the written-out command list, all succeeding |
| DeviceAdmin.Apply | hostsidetests/devicepolicy/src/com/android/cts/devicepolicy/BaseDeviceAdminHostSideTest.java:138-146 | device assumption: a failed call changes nothing; a successful promotion makes the receiver owner; an owner is only ever removed by a passing ClearDeviceOwnerTest, and an enrolment only ever removed by a passing clearing test |
| DeviceAdmin.ScenarioLeavesEnrollment | hostsidetests/devicepolicy/src/com/android/cts/devicepolicy/BaseDeviceAdminHostSideTest.java:120-192 | against a device that answers every call with success, the owner test leaves the receiver owner and the other tests leave it admin |
| DeviceAdmin.CleanupCommandUnenrolls | hostsidetests/devicepolicy/src/com/android/cts/devicepolicy/BaseDeviceAdminHostSideTest.java:94-99 | each test's clean-up command removes exactly the enrolment that test leaves, and leaves any other enrolment as it is |
| DeviceAdmin.CleanupClearsEnrollment | hostsidetests/devicepolicy/src/com/android/cts/devicepolicy/BaseDeviceAdminHostSideTest.java:94-100 | the clean-up command and the uninstall, both succeeding, leave the receiver unenrolled iff it held the enrolment its test leaves |
| DeviceAdmin.AllSucceedLeavesNotEnrolled | hostsidetests/devicepolicy/src/com/android/cts/devicepolicy/BaseDeviceAdminHostSideTest.java:91-101 | against such a device, every test case leaves the app's receiver neither admin nor owner |
| DeviceAdmin.PasswordTestCanLeaveOwner | hostsidetests/devicepolicy/src/com/android/cts/devicepolicy/BaseDeviceAdminHostSideTest.java:136-166 | as written, the admin password test run with replies success, success, success, success, failure fails and leaves the receiver owner, although its tearDown only deactivates the admin |
| DeviceAdmin.PasswordTestTearDownKeepsOwner | hostsidetests/devicepolicy/src/com/android/cts/devicepolicy/BaseDeviceAdminHostSideTest.java:94-99 | as written, the admin password test's tearDown leaves an owner in place |
| DeviceAdmin.DeviceAdminPasswordTestClearingOwner | hostsidetests/devicepolicy/src/com/android/cts/devicepolicy/BaseDeviceAdminHostSideTest.java:152-166 | corrected admin password test: schedules both the owner and the admin clean-up, and otherwise sends the same calls and reaches the same verdict |
| DeviceAdmin.ClearingOwnerTearDownUnenrolls | hostsidetests/devicepolicy/src/com/android/cts/devicepolicy/BaseDeviceAdminHostSideTest.java:94-100 | with the corrected test, a tearDown whose calls succeed leaves the receiver unenrolled from any enrolment, an owner included |
| ConnectionService.Construct | tests/tests/telecom/src/android/telecom/cts/CtsConnectionService.java:48-51 | a new instance becomes the one registered with telecom; the test slot is untouched |
| ConnectionService.SetUp | tests/tests/telecom/src/android/telecom/cts/CtsConnectionService.java:64-73 | fails with the "tearDown" message iff a service is installed, changing nothing; otherwise installs exactly the given service |
| ConnectionService.TearDown | tests/tests/telecom/src/android/telecom/cts/CtsConnectionService.java:75-79 | empties the slot and keeps the telecom instance |
| ConnectionService.TearDownIdempotent | tests/tests/telecom/src/android/telecom/cts/CtsConnectionService.java:75-79 | tearing down twice is the same as once |
| ConnectionService.SetUpAfterTearDown | tests/tests/telecom/src/android/telecom/cts/CtsConnectionService.java:64-79 | after tearDown any setUp succeeds and installs its argument |
| ConnectionService.Dispatch | tests/tests/telecom/src/android/telecom/cts/CtsConnectionService.java:81-129 | each callback is forwarded unchanged to exactly one target: the installed service if there is one, otherwise the mock fallback |
| ConnectionService.DispatchIgnoresTelecomInstance | tests/tests/telecom/src/android/telecom/cts/CtsConnectionService.java:81-129 | forwarding does not depend on which instance telecom holds |
| ConnectionService.SendToTelecom | tests/tests/telecom/src/android/telecom/cts/CtsConnectionService.java:131-153 | outbound requests reach the registered telecom instance unchanged, and fail iff no instance was ever constructed |
| ConnectionService.SendToTelecomIgnoresSlot | tests/tests/telecom/src/android/telecom/cts/CtsConnectionService.java:131-153 | outbound requests do not depend on the test slot |
| ConnectionService.RunCharacterization | tests/tests/telecom/src/android/telecom/cts/CtsConnectionService.java:48-79 | from the initial registry, after any history the slot holds the first non-null service installed since the last tearDown, and the telecom instance is the last one constructed |
| GnssListener.CountDown | tests/tests/location/src/android/location/cts/TestGnssMeasurementListener.java:57-58 | `countDown` lowers a positive count by exactly one and leaves zero at zero |
| GnssListener.New | tests/tests/location/src/android/location/cts/TestGnssMeasurementListener.java:47-52 | a negative count fails; otherwise the listener starts with no events, status -1 and a latch equal to the count |
| GnssListener.NewWithoutCount | tests/tests/location/src/android/location/cts/TestGnssMeasurementListener.java:43-45 | the one-argument listener starts with its latch already open |
| GnssListener.OnMeasurementsReceived | tests/tests/location/src/android/location/cts/TestGnssMeasurementListener.java:54-60 | the event is appended at the end; the latch drops by one iff it was positive and the list now holds at least the count; nothing else changes |
| GnssListener.OnStatusChanged | tests/tests/location/src/android/location/cts/TestGnssMeasurementListener.java:62-68 | the status is recorded; the latch drops by one iff it was positive and the status is not ready |
| GnssListener.VerifyState | tests/tests/location/src/android/location/cts/TestGnssMeasurementListener.java:81-96 | data is expected iff the status is ready; a soft warning iff it is not-supported; an assertion failure iff it is none of the three known statuses |
| GnssListener.VerifyStateWithoutStatus | tests/tests/location/src/android/location/cts/TestGnssMeasurementListener.java:81-96 | a listener that never got a status fails verifyState |
| GnssListener.DeliverCharacterization | tests/tests/location/src/android/location/cts/TestGnssMeasurementListener.java:54-68 | over any callback sequence, events are only appended in arrival order, the status is the last one reported, and the latch never rises and falls by at most one per callback |
| GnssListener.LatchAfterMeasurements | tests/tests/location/src/android/location/cts/TestGnssMeasurementListener.java:55-59 | after k measurement callbacks, the latch has dropped once for each event from the count-th on |
| GnssListener.FirstEventsKeepLatch | tests/tests/location/src/android/location/cts/TestGnssMeasurementListener.java:55-59 | with a count N ≥ 1, the first N − 1 events leave the latch at N |
| GnssListener.AsWrittenReleasesLate | tests/tests/location/src/android/location/cts/TestGnssMeasurementListener.java:47-59 | as written, measurements alone open the latch iff N = 0 or at least 2N − 1 events arrived |
| GnssListener.AsWrittenCounterexample | tests/tests/location/src/android/location/cts/TestGnssMeasurementListener.java:47-59 | as written, a listener counting 2 events that received 2 events is still closed |
| GnssListener.AsWrittenStatusReleases | tests/tests/location/src/android/location/cts/TestGnssMeasurementListener.java:62-68 | as written, a non-ready status opens the latch iff at most one count was left |
| GnssListener.NewSingleRelease | tests/tests/location/src/android/location/cts/TestGnssMeasurementListener.java:47-52 | corrected constructor: same failure and initial fields, with a latch that is open iff nothing is to be collected |
| GnssListener.SingleReleaseOpensAtN | tests/tests/location/src/android/location/cts/TestGnssMeasurementListener.java:55-59 | with the corrected latch, measurements open it iff at least N events arrived |
| GnssListener.SingleReleaseOpensOnStatus | tests/tests/location/src/android/location/cts/TestGnssMeasurementListener.java:62-68 | with the corrected latch, any non-ready status opens it, whatever came before |

## Left out

- DpToPx: the source computes in `float`. The model uses exact arithmetic, which agrees with it while |dp·dpi| stays below 2^24. Larger products, where `float` rounding differs, are not modelled.
- ExpectedSize: the conversion of an app-rectangle side to `float` is exact only below 2^24. Larger sides are not modelled.
- VerifyFrameSizeAndPosition: Java `int` overflow in `y + height` and `x + width` is not modelled, because integers are unbounded here.
- Parsing the window manager's dump, `computeState`, `assertSanity` and the polling behind them are not part of this model. The state is given as a `WmState` value.
- `getWindowName` is not part of this model. The mapping from activity name to window name is a parameter.
- `supportsFreeform` is a parameter, because the device query lives in the test base, which is not part of this model.
- The "Should have a valid window" null check cannot fail in the model, because a window list holds no null entries.
- The base class BaseDevicePolicyTest is not part of this model. This leaves out `super.setUp`/`super.tearDown`, `mHasFeature` (a parameter), `USER_OWNER` (taken as user 0), `installApp`, `setDeviceAdmin`, `setDeviceOwner` and `runDeviceTestsAsUser`. The three helpers are taken to raise when their call fails. `runDeviceTestsAsUser` returns the device's reply.
- Exceptions from the device transport, such as an unavailable device, are not modelled. Every call gets a success or failure reply.
- DeviceAdmin.Apply: the device-side test classes are not part of this model. The enrolment model assumes a passing ClearDeviceOwnerTest removes an owner (line 145 says it removes the admin too) and a passing ClearDeviceAdminTest removes an admin; neither changes any other enrolment, and the uninstall changes none.
- `getUnprotectedAdminReceiverComponent` is modelled as a name (`UnprotectedAdminReceiverComponent`), but no test flow uses it.
- The lock around each connection-service operation is not modelled. Each operation is one atomic step.
- The phone-account-handle argument of `setUp`, which the source ignores, is not modelled.
- The identity of the mock fallback service is not modelled: it is a single `MockFallback` target.
- The 90-second `await` timeout and `InterruptedException` are not modelled. `await` succeeding is modelled as the latch being zero.
- The GNSS listener's concurrency is not modelled: `mStatus` is `volatile` (line 36) and the event list is an unsynchronized `ArrayList` (line 40). The model delivers callbacks one at a time, so racing callbacks are not covered.
- The GNSS status constants are platform values that are not part of this model. They are given as 0, 1 and 2. The proofs rely only on their being distinct.
- Logging (`CLog`, `Log.i`) and the soft-assert warning are reduced to a flag in the result.

## Findings

| source | as written | input that shows it | evidently intended | confidence | as-written member | corrected member |
|---|---|---|---|---|---|---|
| tests/tests/location/src/android/location/cts/TestGnssMeasurementListener.java:49-59 | the latch starts at the number of events to collect, but each event counts it down only once the list already holds that many, so measurements alone open it only after 2N − 1 events | N = 2 and two measurement callbacks leave the latch at 1, so `await` waits for its timeout although both events arrived | `await` succeeds as soon as N events have been collected: a latch of one, counted down at the N-th event | medium; not executed | GnssListener.AsWrittenReleasesLate | GnssListener.SingleReleaseOpensAtN |
| hostsidetests/devicepolicy/src/com/android/cts/devicepolicy/BaseDeviceAdminHostSideTest.java:136-166 | the admin password test sets only the deactivate flag (line 157), yet `makeDoAndClearPassword` first promotes the receiver to owner (line 138); if a call after that promotion fails before the owner is cleared (lines 140-143), the owner stays and tearDown runs only ClearDeviceAdminTest and the uninstall | with the feature and replies success, success, success, success, failure (install, enrol, promote, clear password, then a failing ClearDeviceOwnerTest), the test case fails and the receiver is still owner after tearDown | tearDown also clears the owner whenever the test may have promoted the receiver | low; not executed | DeviceAdmin.PasswordTestCanLeaveOwner | DeviceAdmin.ClearingOwnerTearDownUnenrolls |
