/** The host-side device-admin test base: it installs the device-admin test
    app for one target API version, enrols its receiver as device admin,
    runs device-side test classes, promotes the admin to device owner where a
    scenario needs it, and tears the enrolment down again.

    Every call to the device becomes a `Command` value appended to a log; the
    device's answers come from a script of replies (true: the call reported
    success). The base class's helpers that are not part of this model
    (installing, `setDeviceAdmin`, `setDeviceOwner`) are taken to raise when
    their call fails; `runTests` returns its reply, which the scenarios assert
    and `tearDown` ignores. A test case runs as JUnit 3 runs it: `setUp`, then
    the test, then `tearDown` as a `finally` -- unless `setUp` itself raised. */
module DeviceAdmin {
  import opened Wrappers
  import Decimal

  // ---------------------------------------------------------------------------
  // Names

  const JavaPackage: string := "com.android.cts.deviceadmin"
  const AdminReceiverClass: string := "BaseDeviceAdminTest$AdminReceiver"
  const UnprotectedAdminReceiverClass: string := "DeviceAdminReceiverWithNoProtection"
  /** The primary user (the base class's USER_OWNER). */
  const PrimaryUser: int := 0

  /** The APK file for a target API version, such as "CtsDeviceAdminApp24.apk". */
  function ApkFileName(version: int): (name: string)
    ensures |name| == 21 + |Decimal.IntToString(version)|
    ensures name[..17] == "CtsDeviceAdminApp"
    ensures name[|name| - 4..] == ".apk"
    ensures name[17..|name| - 4] == Decimal.IntToString(version)
  {
    "CtsDeviceAdminApp" + Decimal.IntToString(version) + ".apk"
  }

  /** The installed package, such as "com.android.cts.deviceadmin24". */
  function ApkPackage(version: int): (pkg: string)
    ensures |pkg| == |JavaPackage| + |Decimal.IntToString(version)|
    ensures pkg[..|JavaPackage|] == JavaPackage
    ensures pkg[|JavaPackage|..] == Decimal.IntToString(version)
    ensures '/' !in pkg
  {
    JavaPackage + Decimal.IntToString(version)
  }

  /** A class of the test app qualified by its Java package. */
  function Qualified(className: string): (q: string)
    ensures |q| == |JavaPackage| + 1 + |className|
    ensures q[..|JavaPackage| + 1] == JavaPackage + "."
    ensures q[|JavaPackage| + 1..] == className
  {
    JavaPackage + "." + className
  }

  /** Distinct class names qualify to distinct names. */
  lemma QualifiedInjective(a: string, b: string)
    ensures Qualified(a) == Qualified(b) <==> a == b
  {
    if Qualified(a) == Qualified(b) {
      assert a == Qualified(a)[|JavaPackage| + 1..];
    }
  }

  /** The part of a component name before its first slash. */
  function PackageOf(component: string): (pkg: string)
    ensures '/' !in pkg
    ensures |pkg| <= |component| && pkg == component[..|pkg|]
  {
    if |component| == 0 || component[0] == '/' then [] else [component[0]] + PackageOf(component[1..])
  }

  lemma {:induction false} PackageOfSplit(pkg: string, rest: string)
    requires '/' !in pkg
    ensures PackageOf(pkg + "/" + rest) == pkg
    decreases |pkg|
  {
    if |pkg| > 0 {
      assert (pkg + "/" + rest)[1..] == pkg[1..] + "/" + rest;
      PackageOfSplit(pkg[1..], rest);
    }
  }

  /** Whether a component name is `package/class` with the given class. */
  predicate NamesClass(component: string, className: string) {
    && |PackageOf(component)| < |component|
    && component[|PackageOf(component)|] == '/'
    && component[|PackageOf(component)| + 1..] == className
  }

  /** A receiver component: read as a component name, it names the app's
      package and the receiver's class qualified by the Java package. */
  function ReceiverComponent(version: int, receiverClass: string): (c: string)
    ensures PackageOf(c) == ApkPackage(version)
    ensures NamesClass(c, Qualified(receiverClass))
  {
    PackageOfSplit(ApkPackage(version), Qualified(receiverClass));
    ApkPackage(version) + "/" + Qualified(receiverClass)
  }

  function AdminReceiverComponent(version: int): (c: string)
    ensures PackageOf(c) == ApkPackage(version)
    ensures NamesClass(c, Qualified(AdminReceiverClass))
  {
    ReceiverComponent(version, AdminReceiverClass)
  }

  function UnprotectedAdminReceiverComponent(version: int): (c: string)
    ensures PackageOf(c) == ApkPackage(version)
    ensures NamesClass(c, Qualified(UnprotectedAdminReceiverClass))
  {
    ReceiverComponent(version, UnprotectedAdminReceiverClass)
  }

  /** The two receivers live in the same package but are different components. */
  lemma ReceiversDistinct(version: int)
    ensures PackageOf(AdminReceiverComponent(version)) == PackageOf(UnprotectedAdminReceiverComponent(version))
    ensures AdminReceiverComponent(version) != UnprotectedAdminReceiverComponent(version)
  {
    if AdminReceiverComponent(version) == UnprotectedAdminReceiverComponent(version) {
      QualifiedInjective(AdminReceiverClass, UnprotectedAdminReceiverClass);
    }
  }

  /** Different API versions get different APK files and packages. */
  lemma NamesDistinguishVersions(a: int, b: int)
    ensures ApkPackage(a) == ApkPackage(b) ==> a == b
    ensures ApkFileName(a) == ApkFileName(b) ==> a == b
  {
    Decimal.IntToStringInjective(a, b);
  }

  lemma Version24Renders()
    ensures Decimal.IntToString(24) == "24"
  {
    assert Decimal.NatToString(2) == "2";
    assert Decimal.NatToString(24) == Decimal.NatToString(2) + [Decimal.DigitChar(4)];
  }

  lemma NamesForVersion24()
    ensures ApkFileName(24) == "CtsDeviceAdminApp24.apk"
    ensures ApkPackage(24) == "com.android.cts.deviceadmin24"
    ensures PackageOf(AdminReceiverComponent(24)) == "com.android.cts.deviceadmin24"
  {
    Version24Renders();
  }

  // ---------------------------------------------------------------------------
  // Remote calls

  datatype Command =
    | InstallApp(apkFile: string)
    | SetDeviceAdmin(component: string, userId: int)
    | SetDeviceOwner(component: string)
    | RunDeviceTests(pkg: string, testClass: string, testMethod: Option<string>, userId: int)
    | UninstallPackage(pkg: string)

  datatype Call = Call(command: Command, succeeded: bool)

  function Commands(calls: seq<Call>): (cmds: seq<Command>)
    ensures |cmds| == |calls|
    ensures forall i :: 0 <= i < |calls| ==> cmds[i] == calls[i].command
  {
    seq(|calls|, i requires 0 <= i < |calls| => calls[i].command)
  }

  /** The given commands, each answered with success. */
  function Succeeding(commands: seq<Command>): (calls: seq<Call>)
    ensures |calls| == |commands|
    ensures forall i :: 0 <= i < |calls| ==> calls[i] == Call(commands[i], true)
    decreases |commands|
  {
    if |commands| == 0 then [] else [Call(commands[0], true)] + Succeeding(commands[1..])
  }

  lemma {:induction false} SucceedingConcat(a: seq<Command>, b: seq<Command>)
    ensures Succeeding(a + b) == Succeeding(a) + Succeeding(b)
  {
    forall i | 0 <= i < |a| + |b|
      ensures Succeeding(a + b)[i] == (Succeeding(a) + Succeeding(b))[i]
    {
      if i >= |a| {
        assert (a + b)[i] == b[i - |a|];
      }
    }
  }

  /** The device's reply to the next call: the head of the script, or success
      once the script is used up. */
  function Reply(script: seq<bool>): bool {
    if |script| == 0 then true else script[0]
  }

  function Drop(script: seq<bool>, n: nat): seq<bool> {
    if n >= |script| then [] else script[n..]
  }

  /** Calls whose failure raises: they are made in order, up to and including
      the first one that fails. */
  function CheckedCalls(script: seq<bool>, commands: seq<Command>): (calls: seq<Call>)
    ensures |calls| <= |commands|
    ensures |commands| > 0 ==> 0 < |calls|
    ensures forall i :: 0 <= i < |calls| ==> calls[i].command == commands[i]
    ensures !Raised(calls) ==> |calls| == |commands|
    decreases |commands|
  {
    if |commands| == 0 then []
    else if Reply(script) then [Call(commands[0], true)] + CheckedCalls(Drop(script, 1), commands[1..])
    else [Call(commands[0], false)]
  }

  /** Whether a run of checked calls ended in a failure. */
  predicate Raised(calls: seq<Call>) {
    0 < |calls| && !calls[|calls| - 1].succeeded
  }

  /** Only the last checked call can fail; when none fails, every command is sent. */
  lemma {:induction false} CheckedCallsStopAtFailure(script: seq<bool>, commands: seq<Command>)
    ensures forall i :: 0 <= i < |CheckedCalls(script, commands)| - 1 ==> CheckedCalls(script, commands)[i].succeeded
    ensures script == [] ==> CheckedCalls(script, commands) == Succeeding(commands)
    decreases |commands|
  {
    if |commands| > 0 && Reply(script) {
      CheckedCallsStopAtFailure(Drop(script, 1), commands[1..]);
      var rest := CheckedCalls(Drop(script, 1), commands[1..]);
      var calls := CheckedCalls(script, commands);
      assert calls == [Call(commands[0], true)] + rest;
      forall i | 0 <= i < |calls| - 1 ensures calls[i].succeeded {
        if i > 0 {
          assert calls[i] == rest[i - 1];
        }
      }
      if script == [] {
        assert Succeeding(commands) == [Call(commands[0], true)] + Succeeding(commands[1..]);
      }
    }
  }

  /** Calls whose replies are ignored: every command is sent. */
  function UncheckedCalls(script: seq<bool>, commands: seq<Command>): (calls: seq<Call>)
    ensures Commands(calls) == commands
    decreases |commands|
  {
    if |commands| == 0 then []
    else [Call(commands[0], Reply(script))] + UncheckedCalls(Drop(script, 1), commands[1..])
  }

  lemma {:induction false} UncheckedCallsAllSucceed(commands: seq<Command>)
    ensures UncheckedCalls([], commands) == Succeeding(commands)
    decreases |commands|
  {
    if |commands| > 0 {
      UncheckedCallsAllSucceed(commands[1..]);
      assert Succeeding(commands) == [Call(commands[0], true)] + Succeeding(commands[1..]);
    }
  }

  /** The calls made so far, and the device's replies to the calls still to
      come, in order. */
  datatype Session = Session(log: seq<Call>, script: seq<bool>)

  /** The session after a run of calls, and whether the run raised. */
  datatype Step = Step(session: Session, raised: bool)

  lemma CommandsConcat(a: seq<Call>, b: seq<Call>)
    ensures Commands(a + b) == Commands(a) + Commands(b)
  {
    forall i | 0 <= i < |a| + |b|
      ensures Commands(a + b)[i] == (Commands(a) + Commands(b))[i]
    {
      if i >= |a| {
        assert (a + b)[i] == b[i - |a|];
      }
    }
  }

  /** Checked calls appended to the log: the run stops at the first failure,
      which is then raised. */
  function IssueChecked(s: Session, commands: seq<Command>): (r: Step)
    ensures r.session.log == s.log + CheckedCalls(s.script, commands)
  {
    var calls := CheckedCalls(s.script, commands);
    Step(Session(s.log + calls, Drop(s.script, |calls|)), Raised(calls))
  }

  /** A log that extends `a` agrees with it on every slice within `a`. */
  lemma SliceOfPrefix(a: seq<Call>, b: seq<Call>, i: nat)
    requires i <= |a| <= |b| && b[..|a|] == a
    ensures b[i..|a|] == a[i..]
    ensures b[..i] == a[..i]
  {
    assert forall k :: i <= k < |a| ==> b[k] == b[..|a|][k];
    assert forall k :: 0 <= k < i ==> b[k] == b[..|a|][k];
  }

  /** When a log extends a prefix with no failed call, a failure among its
      calls other than the last `n` is a failure after the prefix. */
  lemma FailedBeforeLast(prefix: seq<Call>, log: seq<Call>, n: nat)
    requires |prefix| + n <= |log| && log[..|prefix|] == prefix && !AnyFailed(prefix)
    ensures AnyFailed(log[..|log| - n]) <==> AnyFailed(log[|prefix|..|log| - n])
  {
    assert log[..|log| - n] == prefix + log[|prefix|..|log| - n];
    AnyFailedConcat(prefix, log[|prefix|..|log| - n]);
  }

  /** Checked calls only append to the log, in the order given, and at
      least one call is made when there is a command to send. */
  lemma IssueCheckedAppends(s: Session, commands: seq<Command>)
    ensures var r := IssueChecked(s, commands);
            && |s.log| <= |r.session.log| <= |s.log| + |commands|
            && (|commands| > 0 ==> |s.log| < |r.session.log|)
            && r.session.log[..|s.log|] == s.log
            && (forall i :: |s.log| <= i < |r.session.log| ==> r.session.log[i].command == commands[i - |s.log|])
  {
    var calls := CheckedCalls(s.script, commands);
    var log := IssueChecked(s, commands).session.log;
    forall i | |s.log| <= i < |log| ensures log[i].command == commands[i - |s.log|] {
      assert log[i] == calls[i - |s.log|];
    }
  }

  /** Unless a checked call fails, every command is sent. */
  lemma IssueCheckedCompletes(s: Session, commands: seq<Command>)
    ensures !IssueChecked(s, commands).raised ==>
              Commands(IssueChecked(s, commands).session.log) == Commands(s.log) + commands
  {
    var calls := CheckedCalls(s.script, commands);
    CommandsConcat(s.log, calls);
    if !Raised(calls) {
      assert Commands(calls) == commands;
    }
  }

  /** Against a device with nothing more to report, checked calls all succeed. */
  lemma IssueCheckedAllSucceed(s: Session, commands: seq<Command>)
    requires s.script == []
    ensures IssueChecked(s, commands) == Step(Session(s.log + Succeeding(commands), []), false)
  {
    CheckedCallsStopAtFailure(s.script, commands);
  }

  /** Whether any call of a run failed. */
  predicate AnyFailed(calls: seq<Call>) {
    exists i :: 0 <= i < |calls| && !calls[i].succeeded
  }

  lemma AnyFailedConcat(a: seq<Call>, b: seq<Call>)
    ensures AnyFailed(a + b) <==> AnyFailed(a) || AnyFailed(b)
  {
    if AnyFailed(a + b) {
      var i :| 0 <= i < |a + b| && !(a + b)[i].succeeded;
      if i >= |a| {
        assert b[i - |a|] == (a + b)[i];
      }
    }
    if AnyFailed(a) {
      var i :| 0 <= i < |a| && !a[i].succeeded;
      assert (a + b)[i] == a[i];
    }
    if AnyFailed(b) {
      var i :| 0 <= i < |b| && !b[i].succeeded;
      assert (a + b)[|a| + i] == b[i];
    }
  }

  /** A run of checked calls raises exactly when one of its calls failed. */
  lemma CheckedCallsRaiseIff(script: seq<bool>, commands: seq<Command>)
    ensures Raised(CheckedCalls(script, commands)) <==> AnyFailed(CheckedCalls(script, commands))
  {
    CheckedCallsStopAtFailure(script, commands);
    var calls := CheckedCalls(script, commands);
    if AnyFailed(calls) {
      var i :| 0 <= i < |calls| && !calls[i].succeeded;
      assert i == |calls| - 1;
    }
    if Raised(calls) {
      assert !calls[|calls| - 1].succeeded;
    }
  }

  /** The calls a checked run appends, and it raises exactly when one of them failed. */
  lemma IssueCheckedRaisedIff(s: Session, commands: seq<Command>)
    ensures |s.log| <= |IssueChecked(s, commands).session.log|
    ensures IssueChecked(s, commands).session.log[|s.log|..] == CheckedCalls(s.script, commands)
    ensures IssueChecked(s, commands).raised <==> AnyFailed(CheckedCalls(s.script, commands))
  {
    CheckedCallsRaiseIff(s.script, commands);
    assert (s.log + CheckedCalls(s.script, commands))[|s.log|..] == CheckedCalls(s.script, commands);
  }

  /** What a log holds past position `n` once more calls are appended. */
  lemma SuffixAfterAppend(log: seq<Call>, more: seq<Call>, n: nat)
    requires n <= |log|
    ensures (log + more)[n..] == log[n..] + more
  {
  }

  /** A checked run followed by another taking the replies it left: one of
      them raised exactly when some call they appended failed. */
  lemma TwoRunsVerdict(s: Session, a: seq<Command>, b: seq<Command>)
    ensures var r1 := IssueChecked(s, a);
            var r2 := IssueChecked(r1.session, b);
            && |s.log| <= |r2.session.log|
            && (r1.raised || r2.raised <==> AnyFailed(r2.session.log[|s.log|..]))
  {
    var r1 := IssueChecked(s, a);
    IssueCheckedRaisedIff(s, a);
    IssueCheckedRaisedIff(r1.session, b);
    var c2 := CheckedCalls(r1.session.script, b);
    SuffixAfterAppend(r1.session.log, c2, |s.log|);
    AnyFailedConcat(r1.session.log[|s.log|..], c2);
  }

  /** Three checked runs one after the other, as a `try` body between two
      runs of the same calls in `finally`: some run raised exactly when some
      call they appended failed. */
  lemma ThreeRunsVerdict(s: Session, a: seq<Command>, b: seq<Command>, c: seq<Command>)
    ensures var r1 := IssueChecked(s, a);
            var r2 := IssueChecked(r1.session, b);
            var r3 := IssueChecked(r2.session, c);
            && |s.log| <= |r3.session.log|
            && (r1.raised || r2.raised || r3.raised <==> AnyFailed(r3.session.log[|s.log|..]))
  {
    var r1 := IssueChecked(s, a);
    var r2 := IssueChecked(r1.session, b);
    TwoRunsVerdict(s, a, b);
    IssueCheckedRaisedIff(r2.session, c);
    var c3 := CheckedCalls(r2.session.script, c);
    SuffixAfterAppend(r2.session.log, c3, |s.log|);
    AnyFailedConcat(r2.session.log[|s.log|..], c3);
  }

  /** Calls whose replies are ignored, appended to the log. */
  function IssueUnchecked(s: Session, commands: seq<Command>): (s': Session)
    ensures Commands(s'.log) == Commands(s.log) + commands
    ensures s'.log[..|s.log|] == s.log
    ensures s.script == [] ==> s' == Session(s.log + Succeeding(commands), [])
  {
    var calls := UncheckedCalls(s.script, commands);
    CommandsConcat(s.log, calls);
    UncheckedCallsAllSucceed(commands);
    Session(s.log + calls, Drop(s.script, |calls|))
  }

  // ---------------------------------------------------------------------------
  // Fixture

  /** The test object's fields: whether the device has the feature (found by
      the base class), the target API version, the user, and the two flags that
      schedule clean-up work for `tearDown`. */
  datatype Fixture = Fixture(
    hasFeature: bool,
    apiVersion: int,
    userId: int,
    clearDeviceOwnerInTearDown: bool,
    deactivateInTearDown: bool)

  /** `runTests(apk, className, method)`: the class is qualified by the Java package. */
  function RunTests(f: Fixture, apk: string, className: string, testMethod: Option<string>): (c: Command)
    ensures c.RunDeviceTests? && c.pkg == apk && c.testMethod == testMethod && c.userId == f.userId
    ensures c.testClass == Qualified(className)
  {
    RunDeviceTests(apk, Qualified(className), testMethod, f.userId)
  }

  /** `runTests(apk, className)`: every method of the class. */
  function RunTestClass(f: Fixture, apk: string, className: string): (c: Command)
    ensures c.RunDeviceTests? && c.pkg == apk && c.userId == f.userId
    ensures c.testClass == Qualified(className)
    ensures c.testMethod.None?
  {
    RunTests(f, apk, className, None)
  }

  function TestClassCommand(f: Fixture, className: string): Command {
    RunTestClass(f, ApkPackage(f.apiVersion), className)
  }

  datatype Progress = Progress(fixture: Fixture, step: Step)

  /** `setUp`: both flags cleared; with the feature, install the app and enrol
      its receiver as admin of the primary user. */
  function SetUp(hasFeature: bool, version: int, s: Session): (p: Progress)
    ensures !p.fixture.clearDeviceOwnerInTearDown && !p.fixture.deactivateInTearDown
    ensures p.fixture.hasFeature == hasFeature && p.fixture.apiVersion == version
    ensures p.fixture.userId == PrimaryUser
    ensures !hasFeature ==> p.step == Step(s, false)
    ensures hasFeature && !p.step.raised ==>
              Commands(p.step.session.log) == Commands(s.log) + [
                InstallApp(ApkFileName(version)),
                SetDeviceAdmin(AdminReceiverComponent(version), PrimaryUser)]
  {
    var f := Fixture(hasFeature, version, PrimaryUser, false, false);
    var cmds := [InstallApp(ApkFileName(version)), SetDeviceAdmin(AdminReceiverComponent(version), PrimaryUser)];
    IssueCheckedCompletes(s, cmds);
    if hasFeature then
      Progress(f, IssueChecked(s, cmds))
    else
      Progress(f, Step(s, false))
  }

  /** What `tearDown` sends: nothing without the feature; otherwise clearing
      the owner if scheduled, then deactivating the admin if scheduled, then
      uninstalling the app. */
  function TearDownCommands(f: Fixture): (cmds: seq<Command>)
    ensures !f.hasFeature ==> cmds == []
    ensures f.hasFeature ==> |cmds| >= 1 && cmds[|cmds| - 1] == UninstallPackage(ApkPackage(f.apiVersion))
  {
    if f.hasFeature then
      (if f.clearDeviceOwnerInTearDown then [TestClassCommand(f, "ClearDeviceOwnerTest")] else [])
      + (if f.deactivateInTearDown then [TestClassCommand(f, "ClearDeviceAdminTest")] else [])
      + [UninstallPackage(ApkPackage(f.apiVersion))]
    else []
  }

  /** Each flag adds exactly its own clean-up command, owner before admin, and
      with neither flag only the uninstall remains. */
  lemma TearDownSchedule(f: Fixture)
    requires f.hasFeature
    ensures TestClassCommand(f, "ClearDeviceOwnerTest") in TearDownCommands(f) <==> f.clearDeviceOwnerInTearDown
    ensures TestClassCommand(f, "ClearDeviceAdminTest") in TearDownCommands(f) <==> f.deactivateInTearDown
    ensures !f.clearDeviceOwnerInTearDown && !f.deactivateInTearDown ==>
              TearDownCommands(f) == [UninstallPackage(ApkPackage(f.apiVersion))]
    ensures f.clearDeviceOwnerInTearDown && f.deactivateInTearDown ==>
              TearDownCommands(f)[0] == TestClassCommand(f, "ClearDeviceOwnerTest")
              && TearDownCommands(f)[1] == TestClassCommand(f, "ClearDeviceAdminTest")
  {
    var owner := TestClassCommand(f, "ClearDeviceOwnerTest");
    var admin := TestClassCommand(f, "ClearDeviceAdminTest");
    assert owner != admin by {
      assert "ClearDeviceOwnerTest"[11] != "ClearDeviceAdminTest"[11];
      QualifiedInjective("ClearDeviceOwnerTest", "ClearDeviceAdminTest");
    }
  }

  /** `tearDown` ignores every reply, so it always runs to the end. */
  function TearDown(f: Fixture, s: Session): (s': Session)
    ensures Commands(s'.log) == Commands(s.log) + TearDownCommands(f)
  {
    IssueUnchecked(s, TearDownCommands(f))
  }

  // ---------------------------------------------------------------------------
  // Scenarios

  /** The calls of `makeDoAndClearPassword`: promote the admin to owner, clear
      the password, clear the owner (which also removes the admin), and enrol
      the admin again. */
  function MakeDoAndClearPasswordCommands(f: Fixture): (cmds: seq<Command>)
    ensures |cmds| == 4
    ensures cmds[0] == SetDeviceOwner(AdminReceiverComponent(f.apiVersion))
    ensures cmds[|cmds| - 1] == SetDeviceAdmin(AdminReceiverComponent(f.apiVersion), f.userId)
    ensures forall i :: 0 < i < |cmds| - 1 ==>
              cmds[i].RunDeviceTests? && cmds[i].pkg == ApkPackage(f.apiVersion) && cmds[i].userId == f.userId
  {
    var component := AdminReceiverComponent(f.apiVersion);
    [ SetDeviceOwner(component),
      TestClassCommand(f, "ClearPasswordTest"),
      TestClassCommand(f, "ClearDeviceOwnerTest"),
      SetDeviceAdmin(component, f.userId) ]
  }

  function MakeDoAndClearPassword(f: Fixture, s: Session): (r: Step)
    ensures !r.raised ==> Commands(r.session.log) == Commands(s.log) + MakeDoAndClearPasswordCommands(f)
    ensures |r.session.log| > |s.log|
    ensures r.session.log[|s.log|].command == SetDeviceOwner(AdminReceiverComponent(f.apiVersion))
  {
    IssueCheckedAppends(s, MakeDoAndClearPasswordCommands(f));
    IssueCheckedCompletes(s, MakeDoAndClearPasswordCommands(f));
    IssueChecked(s, MakeDoAndClearPasswordCommands(f))
  }

  datatype Scenario = RunDeviceAdminTest | ResetPasswordNycRestrictions | RunDeviceOwnerPasswordTest

  /** `testRunDeviceAdminPasswordTest(method)`: clear the password, then run the
      password test with a second password clearing in `finally`. A failure of
      the first clearing raises before the `try` is entered. */
  function DeviceAdminPasswordTest(f: Fixture, testMethod: string, s: Session): (p: Progress)
    requires f.hasFeature
    ensures p.fixture == f.(deactivateInTearDown := true)
  {
    var f' := f.(deactivateInTearDown := true);
    var before := MakeDoAndClearPassword(f', s);
    if before.raised then Progress(f', before)
    else
      var body := IssueChecked(before.session,
                               [RunTests(f', ApkPackage(f'.apiVersion), "DeviceAdminPasswordTest", Some(testMethod))]);
      var after := MakeDoAndClearPassword(f', body.session);
      Progress(f', Step(after.session, body.raised || after.raised))
  }

  /** `testRunDeviceOwnerPasswordTest`: promote to owner, clear the password,
      then run the owner test with the password cleared again in `finally`. */
  function DeviceOwnerPasswordTest(f: Fixture, s: Session): (p: Progress)
    requires f.hasFeature
    ensures p.fixture == f.(clearDeviceOwnerInTearDown := true)
  {
    var f' := f.(clearDeviceOwnerInTearDown := true);
    var before := IssueChecked(s, [SetDeviceOwner(AdminReceiverComponent(f'.apiVersion)),
                                   TestClassCommand(f', "ClearPasswordTest")]);
    if before.raised then Progress(f', before)
    else
      var body := IssueChecked(before.session, [TestClassCommand(f', "DeviceOwnerPasswordTest")]);
      var after := IssueChecked(body.session, [TestClassCommand(f', "ClearPasswordTest")]);
      Progress(f', Step(after.session, body.raised || after.raised))
  }

  /** A test method; without the feature it returns at once. */
  function RunScenario(f: Fixture, scenario: Scenario, s: Session): (p: Progress)
    ensures !f.hasFeature ==> p == Progress(f, Step(s, false))
  {
    if !f.hasFeature then Progress(f, Step(s, false))
    else
      match scenario
      case RunDeviceAdminTest =>
        var f' := f.(deactivateInTearDown := true);
        Progress(f', IssueChecked(s, [TestClassCommand(f', "DeviceAdminTest")]))
      case ResetPasswordNycRestrictions =>
        DeviceAdminPasswordTest(f, "testResetPassword_nycRestrictions", s)
      case RunDeviceOwnerPasswordTest =>
        DeviceOwnerPasswordTest(f, s)
  }

  /** The flag a scenario schedules is set before its first remote call, so it
      does not depend on any reply. */
  lemma FlagsIndependentOfReplies(f: Fixture, scenario: Scenario, s1: Session, s2: Session)
    requires f.hasFeature
    ensures RunScenario(f, scenario, s1).fixture == RunScenario(f, scenario, s2).fixture
    ensures RunScenario(f, scenario, s1).fixture.clearDeviceOwnerInTearDown
            == (f.clearDeviceOwnerInTearDown || scenario == RunDeviceOwnerPasswordTest)
    ensures RunScenario(f, scenario, s1).fixture.deactivateInTearDown
            == (f.deactivateInTearDown || scenario != RunDeviceOwnerPasswordTest)
  {
  }

  /** In the admin password scenario the second password clearing runs whether
      or not the password test passed, once the first clearing succeeded. */
  lemma PasswordClearedAgainInFinally(f: Fixture, s: Session)
    requires f.hasFeature
    ensures var f' := f.(deactivateInTearDown := true);
            var before := MakeDoAndClearPassword(f', s);
            var p := DeviceAdminPasswordTest(f, "testResetPassword_nycRestrictions", s);
            !before.raised ==>
              var testCall := |before.session.log|;
              && |p.step.session.log| > testCall + 1
              && p.step.session.log[testCall].command
                 == RunTests(f', ApkPackage(f.apiVersion), "DeviceAdminPasswordTest",
                             Some("testResetPassword_nycRestrictions"))
              && p.step.session.log[testCall + 1].command == SetDeviceOwner(AdminReceiverComponent(f.apiVersion))
  {
  }

  /** In the owner scenario the password is cleared again after the owner
      test, whether or not it passed. */
  lemma OwnerPasswordClearedInFinally(f: Fixture, s: Session)
    requires f.hasFeature
    ensures var f' := f.(clearDeviceOwnerInTearDown := true);
            var before := IssueChecked(s, [SetDeviceOwner(AdminReceiverComponent(f.apiVersion)),
                                           TestClassCommand(f', "ClearPasswordTest")]);
            var p := DeviceOwnerPasswordTest(f, s);
            !before.raised ==>
              Commands(p.step.session.log) == Commands(s.log) + [
                SetDeviceOwner(AdminReceiverComponent(f.apiVersion)),
                TestClassCommand(f', "ClearPasswordTest"),
                TestClassCommand(f', "DeviceOwnerPasswordTest"),
                TestClassCommand(f', "ClearPasswordTest")]
  {
  }

  /** Every call of the admin password test is asserted: it fails exactly
      when one of its calls failed, the password test itself included even
      when the clearing in `finally` then succeeds. */
  lemma AdminPasswordTestVerdict(f: Fixture, testMethod: string, s: Session)
    requires f.hasFeature
    ensures var p := DeviceAdminPasswordTest(f, testMethod, s);
            |s.log| <= |p.step.session.log|
            && (p.step.raised <==> AnyFailed(p.step.session.log[|s.log|..]))
  {
    var f' := f.(deactivateInTearDown := true);
    var clear := MakeDoAndClearPasswordCommands(f');
    IssueCheckedRaisedIff(s, clear);
    ThreeRunsVerdict(s, clear, [RunTests(f', ApkPackage(f'.apiVersion), "DeviceAdminPasswordTest", Some(testMethod))], clear);
  }

  /** Every call of the owner password test is asserted: it fails exactly when
      one of its calls failed, the owner test itself included even when the
      clearing in `finally` then succeeds. */
  lemma OwnerPasswordTestVerdict(f: Fixture, s: Session)
    requires f.hasFeature
    ensures var p := DeviceOwnerPasswordTest(f, s);
            |s.log| <= |p.step.session.log|
            && (p.step.raised <==> AnyFailed(p.step.session.log[|s.log|..]))
  {
    var f' := f.(clearDeviceOwnerInTearDown := true);
    var first := [SetDeviceOwner(AdminReceiverComponent(f'.apiVersion)), TestClassCommand(f', "ClearPasswordTest")];
    IssueCheckedRaisedIff(s, first);
    ThreeRunsVerdict(s, first, [TestClassCommand(f', "DeviceOwnerPasswordTest")], [TestClassCommand(f', "ClearPasswordTest")]);
  }

  /** The admin test runs DeviceAdminTest once and fails exactly when the
      device reports that it failed. */
  lemma AdminTestVerdict(f: Fixture, s: Session)
    requires f.hasFeature
    ensures var p := RunScenario(f, RunDeviceAdminTest, s);
            && |p.step.session.log| == |s.log| + 1
            && Commands(p.step.session.log) == Commands(s.log) + [TestClassCommand(p.fixture, "DeviceAdminTest")]
            && (p.step.raised <==> !p.step.session.log[|s.log|].succeeded)
  {
    var f' := f.(deactivateInTearDown := true);
    var cmds := [TestClassCommand(f', "DeviceAdminTest")];
    IssueCheckedCompletes(s, cmds);
    IssueCheckedRaisedIff(s, cmds);
    var calls := CheckedCalls(s.script, cmds);
    CommandsConcat(s.log, calls);
    assert (s.log + calls)[|s.log|] == calls[0];
  }

  /** With the feature, a test method fails exactly when one of the calls it
      made failed; without it, nothing is sent and nothing fails. */
  lemma ScenarioVerdict(f: Fixture, scenario: Scenario, s: Session)
    ensures var p := RunScenario(f, scenario, s);
            |s.log| <= |p.step.session.log|
            && (p.step.raised <==> AnyFailed(p.step.session.log[|s.log|..]))
  {
    if f.hasFeature {
      match scenario {
        case RunDeviceAdminTest =>
          var f' := f.(deactivateInTearDown := true);
          IssueCheckedRaisedIff(s, [TestClassCommand(f', "DeviceAdminTest")]);
        case ResetPasswordNycRestrictions =>
          AdminPasswordTestVerdict(f, "testResetPassword_nycRestrictions", s);
        case RunDeviceOwnerPasswordTest =>
          OwnerPasswordTestVerdict(f, s);
      }
    } else {
      assert s.log[|s.log|..] == [];
    }
  }

  // ---------------------------------------------------------------------------
  // Test cases

  datatype Outcome = Outcome(log: seq<Call>, failed: bool)

  /** One test method run by JUnit 3 from a fresh test object: `setUp`, then
      the test and `tearDown` in a `finally`; `tearDown` is skipped only when
      `setUp` raised. */
  function RunTestCase(hasFeature: bool, version: int, scenario: Scenario, script: seq<bool>): (o: Outcome)
    ensures !hasFeature ==> o == Outcome([], false)
  {
    var setUp := SetUp(hasFeature, version, Session([], script));
    if setUp.step.raised then Outcome(setUp.step.session.log, true)
    else
      var test := RunScenario(setUp.fixture, scenario, setUp.step.session);
      var down := TearDown(test.fixture, test.step.session);
      Outcome(down.log, test.step.raised)
  }

  /** `setUp` asserts both of its calls: with the feature it raises exactly
      when one of them failed, and its log holds only those calls. */
  lemma SetUpVerdict(hasFeature: bool, version: int, script: seq<bool>)
    requires hasFeature
    ensures var p := SetUp(hasFeature, version, Session([], script));
            && |p.step.session.log| <= 2
            && (p.step.raised ==> Raised(p.step.session.log))
            && (p.step.raised <==> AnyFailed(p.step.session.log))
  {
    var cmds := [InstallApp(ApkFileName(version)), SetDeviceAdmin(AdminReceiverComponent(version), PrimaryUser)];
    IssueCheckedRaisedIff(Session([], script), cmds);
    assert SetUp(hasFeature, version, Session([], script)).step.session.log == CheckedCalls(script, cmds);
  }

  /** `tearDown` only appends, one call per scheduled command. */
  lemma TearDownExtends(f: Fixture, s: Session)
    ensures |TearDown(f, s).log| == |s.log| + |TearDownCommands(f)|
    ensures TearDown(f, s).log[..|s.log|] == s.log
  {
    var s' := TearDown(f, s);
    assert |Commands(s'.log)| == |Commands(s.log) + TearDownCommands(f)|;
  }

  /** After a `setUp` that enrolled the admin, the test method and then
      `tearDown` run; `tearDown` appends its two calls last, and the test
      method raised exactly when one of the calls before them failed. */
  lemma TestAndTearDownVerdict(version: int, scenario: Scenario, s: Session)
    ensures var test := RunScenario(Fixture(true, version, PrimaryUser, false, false), scenario, s);
            var down := TearDown(test.fixture, test.step.session);
            && |down.log| == |test.step.session.log| + 2
            && |s.log| <= |test.step.session.log|
            && down.log[..|s.log|] == s.log
            && (test.step.raised <==> AnyFailed(down.log[|s.log|..|down.log| - 2]))
  {
    var f := Fixture(true, version, PrimaryUser, false, false);
    var test := RunScenario(f, scenario, s);
    ScenarioVerdict(f, scenario, s);
    ScenarioExtendsLog(f, scenario, s);
    TearDownAfterScenario(version, scenario, s);
    TearDownExtends(test.fixture, test.step.session);
    var down := TearDown(test.fixture, test.step.session);
    SliceOfPrefix(test.step.session.log, down.log, |s.log|);
  }

  /** A `setUp` failure fails the test case and skips both the test method
      and `tearDown`: the log holds at most the two `setUp` calls, the last
      of them failed. */
  lemma SetUpFailureSkipsTest(hasFeature: bool, version: int, scenario: Scenario, script: seq<bool>)
    requires SetUp(hasFeature, version, Session([], script)).step.raised
    ensures var o := RunTestCase(hasFeature, version, scenario, script);
            o.failed && |o.log| <= 2 && Raised(o.log)
  {
    SetUpVerdict(hasFeature, version, script);
  }

  /** Once `setUp` succeeded, the last two calls are `tearDown`'s, whose
      replies never matter, and the test case fails exactly when one of the
      calls before them failed. */
  lemma TestCaseVerdict(hasFeature: bool, version: int, scenario: Scenario, script: seq<bool>)
    requires hasFeature && !SetUp(hasFeature, version, Session([], script)).step.raised
    ensures var o := RunTestCase(hasFeature, version, scenario, script);
            2 <= |o.log| && (o.failed <==> AnyFailed(o.log[..|o.log| - 2]))
  {
    var setUp := SetUp(hasFeature, version, Session([], script));
    SetUpVerdict(hasFeature, version, script);
    var s1 := setUp.step.session;
    TestAndTearDownVerdict(version, scenario, s1);
    var test := RunScenario(setUp.fixture, scenario, s1);
    var log := TearDown(test.fixture, test.step.session).log;
    assert RunTestCase(hasFeature, version, scenario, script) == Outcome(log, test.step.raised);
    FailedBeforeLast(s1.log, log, 2);
  }

  /** The command that removes the enrolment a scenario makes. */
  function CleanupCommand(version: int, scenario: Scenario): Command {
    var f := Fixture(true, version, PrimaryUser, false, false);
    if scenario == RunDeviceOwnerPasswordTest then TestClassCommand(f, "ClearDeviceOwnerTest")
    else TestClassCommand(f, "ClearDeviceAdminTest")
  }

  /** Once `setUp` has enrolled the admin, the test case ends with the
      scenario's clean-up command and the uninstall, whatever the device
      replied during the test: a failed promotion or device-side test cannot
      skip the clean-up. */
  lemma CleanupAlwaysIssued(version: int, scenario: Scenario, script: seq<bool>)
    requires !SetUp(true, version, Session([], script)).step.raised
    ensures var cmds := Commands(RunTestCase(true, version, scenario, script).log);
            && |cmds| >= 2
            && cmds[|cmds| - 2..] == [CleanupCommand(version, scenario), UninstallPackage(ApkPackage(version))]
  {
    var setUp := SetUp(true, version, Session([], script));
    var test := RunScenario(setUp.fixture, scenario, setUp.step.session);
    TearDownAfterScenario(version, scenario, setUp.step.session);
    var log := test.step.session.log;
    assert Commands(TearDown(test.fixture, test.step.session).log)
           == Commands(log) + [CleanupCommand(version, scenario), UninstallPackage(ApkPackage(version))];
  }

  /** Once `setUp` has enrolled the admin, the log still begins with the
      install and the enrolment, whatever follows. */
  lemma SetUpCommandsFirst(version: int, scenario: Scenario, script: seq<bool>)
    requires !SetUp(true, version, Session([], script)).step.raised
    ensures var cmds := Commands(RunTestCase(true, version, scenario, script).log);
            && |cmds| >= 2
            && cmds[..2] == [InstallApp(ApkFileName(version)), SetDeviceAdmin(AdminReceiverComponent(version), PrimaryUser)]
  {
    var setUp := SetUp(true, version, Session([], script));
    var s1 := setUp.step.session;
    var test := RunScenario(setUp.fixture, scenario, s1);
    var down := TearDown(test.fixture, test.step.session);
    ScenarioExtendsLog(setUp.fixture, scenario, s1);
    PrefixTransitive(s1.log, test.step.session.log, down.log);
    CommandsPrefix(down.log, 2);
  }

  lemma CommandsPrefix(log: seq<Call>, n: nat)
    requires n <= |log|
    ensures Commands(log)[..n] == Commands(log[..n])
  {
    forall i | 0 <= i < n ensures Commands(log)[..n][i] == Commands(log[..n])[i] {
      assert log[..n][i] == log[i];
    }
  }

  /** A scenario only appends to the log. */
  lemma ScenarioExtendsLog(f: Fixture, scenario: Scenario, s: Session)
    ensures var p := RunScenario(f, scenario, s);
            |s.log| <= |p.step.session.log| && p.step.session.log[..|s.log|] == s.log
  {
    var p := RunScenario(f, scenario, s);
    if f.hasFeature && scenario != RunDeviceAdminTest {
      if scenario == ResetPasswordNycRestrictions {
        var f' := f.(deactivateInTearDown := true);
        var before := MakeDoAndClearPassword(f', s);
        if !before.raised {
          var body := IssueChecked(before.session,
                                   [RunTests(f', ApkPackage(f'.apiVersion), "DeviceAdminPasswordTest",
                                             Some("testResetPassword_nycRestrictions"))]);
          var after := MakeDoAndClearPassword(f', body.session);
          PrefixTransitive(s.log, before.session.log, body.session.log);
          PrefixTransitive(s.log, body.session.log, after.session.log);
        }
      } else {
        var f' := f.(clearDeviceOwnerInTearDown := true);
        var before := IssueChecked(s, [SetDeviceOwner(AdminReceiverComponent(f'.apiVersion)),
                                       TestClassCommand(f', "ClearPasswordTest")]);
        if !before.raised {
          var body := IssueChecked(before.session, [TestClassCommand(f', "DeviceOwnerPasswordTest")]);
          var after := IssueChecked(body.session, [TestClassCommand(f', "ClearPasswordTest")]);
          PrefixTransitive(s.log, before.session.log, body.session.log);
          PrefixTransitive(s.log, body.session.log, after.session.log);
        }
      }
    }
  }

  lemma PrefixTransitive<T>(a: seq<T>, b: seq<T>, c: seq<T>)
    requires |a| <= |b| && b[..|a|] == a
    requires |b| <= |c| && c[..|b|] == b
    ensures |a| <= |c| && c[..|a|] == a
  {
    assert c[..|a|] == c[..|b|][..|a|];
  }

  // ---------------------------------------------------------------------------
  // Enrolment as the device sees it

  /** The enrolment of the test app's receiver on the device. */
  datatype Enrollment = NotEnrolled | AdminActive | OwnerActive

  /** What a call does to the enrolment. The device-side tests are not part of
      this model, so only the effects the host side relies on are assumed: a
      failed call changes nothing; enrolling an admin leaves an owner in place;
      promoting makes the receiver owner; a passing ClearDeviceOwnerTest removes
      an owner and, with it, its admin; a passing ClearDeviceAdminTest removes
      an admin that is not owner. A clearing test in any other state, and
      every other call, changes nothing. */
  function Apply(e: Enrollment, call: Call): (e': Enrollment)
    ensures !call.succeeded ==> e' == e
    ensures call.succeeded && call.command.SetDeviceOwner? ==> e' == OwnerActive
    ensures e == OwnerActive && e' != OwnerActive ==>
              call.succeeded && call.command.RunDeviceTests? && call.command.testClass == Qualified("ClearDeviceOwnerTest")
    ensures e' == NotEnrolled && e != NotEnrolled ==>
              call.succeeded && call.command.RunDeviceTests?
              && (call.command.testClass == Qualified("ClearDeviceOwnerTest")
                  || call.command.testClass == Qualified("ClearDeviceAdminTest"))
  {
    if !call.succeeded then e
    else match call.command
      case SetDeviceAdmin(_, _) => if e == OwnerActive then e else AdminActive
      case SetDeviceOwner(_) => OwnerActive
      case RunDeviceTests(_, testClass, _, _) =>
        if testClass == Qualified("ClearDeviceOwnerTest") && e == OwnerActive then NotEnrolled
        else if testClass == Qualified("ClearDeviceAdminTest") && e == AdminActive then NotEnrolled
        else e
      case _ => e
  }

  function EnrollmentAfter(e: Enrollment, log: seq<Call>): Enrollment
    decreases |log|
  {
    if |log| == 0 then e else EnrollmentAfter(Apply(e, log[0]), log[1..])
  }

  lemma {:induction false} EnrollmentAfterConcat(e: Enrollment, a: seq<Call>, b: seq<Call>)
    ensures EnrollmentAfter(e, a + b) == EnrollmentAfter(EnrollmentAfter(e, a), b)
    decreases |a|
  {
    if |a| == 0 {
      assert a + b == b;
    } else {
      assert (a + b)[0] == a[0];
      assert (a + b)[1..] == a[1..] + b;
      EnrollmentAfterConcat(Apply(e, a[0]), a[1..], b);
    }
  }

  /** The enrolment after commands that all succeed. */
  function EnrollmentAfterCommands(e: Enrollment, commands: seq<Command>): Enrollment
    decreases |commands|
  {
    if |commands| == 0 then e else EnrollmentAfterCommands(Apply(e, Call(commands[0], true)), commands[1..])
  }

  lemma {:induction false} EnrollmentAfterSucceeding(e: Enrollment, commands: seq<Command>)
    ensures EnrollmentAfter(e, Succeeding(commands)) == EnrollmentAfterCommands(e, commands)
    decreases |commands|
  {
    if |commands| > 0 {
      assert Succeeding(commands)[1..] == Succeeding(commands[1..]);
      EnrollmentAfterSucceeding(Apply(e, Call(commands[0], true)), commands[1..]);
    }
  }

  lemma {:induction false} EnrollmentAfterCommandsConcat(e: Enrollment, a: seq<Command>, b: seq<Command>)
    ensures EnrollmentAfterCommands(e, a + b) == EnrollmentAfterCommands(EnrollmentAfterCommands(e, a), b)
    decreases |a|
  {
    if |a| == 0 {
      assert a + b == b;
    } else {
      assert (a + b)[0] == a[0];
      assert (a + b)[1..] == a[1..] + b;
      EnrollmentAfterCommandsConcat(Apply(e, Call(a[0], true)), a[1..], b);
    }
  }

  /** A device-side test other than the two clearing tests leaves the
      enrolment alone. */
  lemma OtherTestsKeepEnrollment(e: Enrollment, f: Fixture, apk: string, className: string, testMethod: Option<string>)
    requires className != "ClearDeviceOwnerTest" && className != "ClearDeviceAdminTest"
    ensures Apply(e, Call(RunTests(f, apk, className, testMethod), true)) == e
  {
    QualifiedInjective(className, "ClearDeviceOwnerTest");
    QualifiedInjective(className, "ClearDeviceAdminTest");
  }

  /** The two clearing tests are different classes. */
  lemma ClearingTestsDiffer()
    ensures Qualified("ClearDeviceOwnerTest") != Qualified("ClearDeviceAdminTest")
  {
    assert "ClearDeviceOwnerTest"[11] != "ClearDeviceAdminTest"[11];
    QualifiedInjective("ClearDeviceOwnerTest", "ClearDeviceAdminTest");
  }

  /** From any enrolment, `makeDoAndClearPassword` succeeding in full passes
      through owner and ends with the receiver enrolled as admin again. */
  lemma MakeDoAndClearPasswordReenrols(f: Fixture, e: Enrollment)
    ensures EnrollmentAfterCommands(e, MakeDoAndClearPasswordCommands(f)[..1]) == OwnerActive
    ensures EnrollmentAfterCommands(e, MakeDoAndClearPasswordCommands(f)) == AdminActive
  {
    var cmds := MakeDoAndClearPasswordCommands(f);
    OtherTestsKeepEnrollment(OwnerActive, f, ApkPackage(f.apiVersion), "ClearPasswordTest", None);
    assert EnrollmentAfterCommands(e, cmds[..1]) == EnrollmentAfterCommands(OwnerActive, []);
    assert EnrollmentAfterCommands(e, cmds) == EnrollmentAfterCommands(OwnerActive, cmds[1..]);
    assert EnrollmentAfterCommands(OwnerActive, cmds[1..]) == EnrollmentAfterCommands(OwnerActive, cmds[2..]);
    assert EnrollmentAfterCommands(OwnerActive, cmds[2..]) == EnrollmentAfterCommands(NotEnrolled, cmds[3..]);
    assert EnrollmentAfterCommands(NotEnrolled, cmds[3..]) == EnrollmentAfterCommands(AdminActive, []);
  }

  /** When every call succeeds, `makeDoAndClearPassword` makes exactly its four
      calls, passing through owner and back to the admin it started from. */
  lemma MakeDoAndClearPasswordRestoresAdmin(f: Fixture, s: Session)
    requires s.script == []
    ensures var cmds := MakeDoAndClearPasswordCommands(f);
            && MakeDoAndClearPassword(f, s) == Step(Session(s.log + Succeeding(cmds), []), false)
            && EnrollmentAfter(AdminActive, Succeeding(cmds[..1])) == OwnerActive
            && EnrollmentAfter(AdminActive, Succeeding(cmds)) == AdminActive
  {
    var cmds := MakeDoAndClearPasswordCommands(f);
    IssueCheckedAllSucceed(s, cmds);
    EnrollmentAfterSucceeding(AdminActive, cmds[..1]);
    EnrollmentAfterSucceeding(AdminActive, cmds);
    MakeDoAndClearPasswordReenrols(f, AdminActive);
  }

  /** What each scenario sends when every call succeeds, written out. */
  function ScenarioCommands(version: int, scenario: Scenario): seq<Command> {
    var f := Fixture(true, version, PrimaryUser, false, false);
    var component := AdminReceiverComponent(version);
    var clearPassword := [SetDeviceOwner(component), TestClassCommand(f, "ClearPasswordTest"),
                          TestClassCommand(f, "ClearDeviceOwnerTest"), SetDeviceAdmin(component, PrimaryUser)];
    match scenario
    case RunDeviceAdminTest =>
      [TestClassCommand(f, "DeviceAdminTest")]
    case ResetPasswordNycRestrictions =>
      clearPassword
      + [RunTests(f, ApkPackage(version), "DeviceAdminPasswordTest", Some("testResetPassword_nycRestrictions"))]
      + clearPassword
    case RunDeviceOwnerPasswordTest =>
      [SetDeviceOwner(component), TestClassCommand(f, "ClearPasswordTest"),
       TestClassCommand(f, "DeviceOwnerPasswordTest"), TestClassCommand(f, "ClearPasswordTest")]
  }

  /** Everything a test case sends when every call succeeds: the enrolment,
      the scenario, its clean-up command and the uninstall. */
  function ExpectedCommands(version: int, scenario: Scenario): seq<Command> {
    [InstallApp(ApkFileName(version)), SetDeviceAdmin(AdminReceiverComponent(version), PrimaryUser)]
    + ScenarioCommands(version, scenario)
    + [CleanupCommand(version, scenario), UninstallPackage(ApkPackage(version))]
  }

  lemma AdminTestAllSucceed(version: int, s: Session)
    requires s.script == []
    ensures RunScenario(Fixture(true, version, PrimaryUser, false, false), RunDeviceAdminTest, s).step
            == Step(Session(s.log + Succeeding(ScenarioCommands(version, RunDeviceAdminTest)), []), false)
  {
    var f := Fixture(true, version, PrimaryUser, false, false);
    IssueCheckedAllSucceed(s, [TestClassCommand(f.(deactivateInTearDown := true), "DeviceAdminTest")]);
  }

  lemma AdminPasswordTestAllSucceed(version: int, s: Session)
    requires s.script == []
    ensures RunScenario(Fixture(true, version, PrimaryUser, false, false), ResetPasswordNycRestrictions, s).step
            == Step(Session(s.log + Succeeding(ScenarioCommands(version, ResetPasswordNycRestrictions)), []), false)
  {
    var f' := Fixture(true, version, PrimaryUser, false, true);
    var clear := MakeDoAndClearPasswordCommands(f');
    var call := RunTests(f', ApkPackage(version), "DeviceAdminPasswordTest", Some("testResetPassword_nycRestrictions"));
    IssueCheckedAllSucceed(s, clear);
    var s2 := Session(s.log + Succeeding(clear), []);
    IssueCheckedAllSucceed(s2, [call]);
    var s3 := Session(s2.log + Succeeding([call]), []);
    IssueCheckedAllSucceed(s3, clear);
    SucceedingConcat(clear, [call]);
    SucceedingConcat(clear + [call], clear);
    assert clear + [call] + clear == ScenarioCommands(version, ResetPasswordNycRestrictions);
  }

  lemma OwnerPasswordTestAllSucceed(version: int, s: Session)
    requires s.script == []
    ensures RunScenario(Fixture(true, version, PrimaryUser, false, false), RunDeviceOwnerPasswordTest, s).step
            == Step(Session(s.log + Succeeding(ScenarioCommands(version, RunDeviceOwnerPasswordTest)), []), false)
  {
    var f' := Fixture(true, version, PrimaryUser, true, false);
    var first := [SetDeviceOwner(AdminReceiverComponent(version)), TestClassCommand(f', "ClearPasswordTest")];
    var second := [TestClassCommand(f', "DeviceOwnerPasswordTest")];
    var third := [TestClassCommand(f', "ClearPasswordTest")];
    IssueCheckedAllSucceed(s, first);
    var s2 := Session(s.log + Succeeding(first), []);
    IssueCheckedAllSucceed(s2, second);
    var s3 := Session(s2.log + Succeeding(second), []);
    IssueCheckedAllSucceed(s3, third);
    SucceedingConcat(first, second);
    SucceedingConcat(first + second, third);
    assert first + second + third == ScenarioCommands(version, RunDeviceOwnerPasswordTest);
  }

  /** After a scenario, `tearDown` sends the scenario's clean-up command and
      the uninstall. */
  lemma TearDownAfterScenario(version: int, scenario: Scenario, s: Session)
    ensures TearDownCommands(RunScenario(Fixture(true, version, PrimaryUser, false, false), scenario, s).fixture)
            == [CleanupCommand(version, scenario), UninstallPackage(ApkPackage(version))]
  {
  }

  lemma SetUpAllSucceed(version: int)
    ensures SetUp(true, version, Session([], []))
            == Progress(Fixture(true, version, PrimaryUser, false, false),
                        Step(Session(Succeeding([InstallApp(ApkFileName(version)),
                                                 SetDeviceAdmin(AdminReceiverComponent(version), PrimaryUser)]), []),
                             false))
  {
    IssueCheckedAllSucceed(Session([], []), [InstallApp(ApkFileName(version)),
                                             SetDeviceAdmin(AdminReceiverComponent(version), PrimaryUser)]);
  }

  lemma ScenarioAllSucceed(version: int, scenario: Scenario, s: Session)
    requires s.script == []
    ensures RunScenario(Fixture(true, version, PrimaryUser, false, false), scenario, s).step
            == Step(Session(s.log + Succeeding(ScenarioCommands(version, scenario)), []), false)
  {
    match scenario {
      case RunDeviceAdminTest => AdminTestAllSucceed(version, s);
      case ResetPasswordNycRestrictions => AdminPasswordTestAllSucceed(version, s);
      case RunDeviceOwnerPasswordTest => OwnerPasswordTestAllSucceed(version, s);
    }
  }

  /** Against a device where every call succeeds, a test case passes and sends
      exactly the expected commands, each call succeeding. */
  lemma AllSucceedRun(version: int, scenario: Scenario)
    ensures RunTestCase(true, version, scenario, []) == Outcome(Succeeding(ExpectedCommands(version, scenario)), false)
  {
    var setUpCmds := [InstallApp(ApkFileName(version)), SetDeviceAdmin(AdminReceiverComponent(version), PrimaryUser)];
    var body := ScenarioCommands(version, scenario);
    var down := [CleanupCommand(version, scenario), UninstallPackage(ApkPackage(version))];
    SetUpAllSucceed(version);
    var setUp := SetUp(true, version, Session([], []));
    var s1 := setUp.step.session;
    ScenarioAllSucceed(version, scenario, s1);
    TearDownAfterScenario(version, scenario, s1);
    var test := RunScenario(setUp.fixture, scenario, s1);
    assert TearDown(test.fixture, test.step.session).log == Succeeding(setUpCmds) + Succeeding(body) + Succeeding(down);
    SucceedingConcat(setUpCmds, body);
    SucceedingConcat(setUpCmds + body, down);
  }

  /** The enrolment a scenario leaves when every call succeeds: the owner test
      leaves the receiver owner, the other two leave it admin. */
  function ScenarioEnrollment(scenario: Scenario): Enrollment {
    if scenario == RunDeviceOwnerPasswordTest then OwnerActive else AdminActive
  }

  /** `setUp` succeeding in full enrols the receiver as admin. */
  lemma SetUpEnrolsAdmin(version: int)
    ensures EnrollmentAfterCommands(NotEnrolled, [InstallApp(ApkFileName(version)),
                                                  SetDeviceAdmin(AdminReceiverComponent(version), PrimaryUser)])
            == AdminActive
  {
    var cmds := [InstallApp(ApkFileName(version)), SetDeviceAdmin(AdminReceiverComponent(version), PrimaryUser)];
    assert EnrollmentAfterCommands(NotEnrolled, cmds) == EnrollmentAfterCommands(NotEnrolled, cmds[1..]);
    assert EnrollmentAfterCommands(NotEnrolled, cmds[1..]) == EnrollmentAfterCommands(AdminActive, []);
  }

  /** Each scenario, succeeding in full from an enrolled admin, leaves the
      enrolment its clean-up command is meant to remove. */
  lemma ScenarioLeavesEnrollment(version: int, scenario: Scenario)
    ensures EnrollmentAfterCommands(AdminActive, ScenarioCommands(version, scenario)) == ScenarioEnrollment(scenario)
  {
    var f := Fixture(true, version, PrimaryUser, false, false);
    var apk := ApkPackage(version);
    var cmds := ScenarioCommands(version, scenario);
    match scenario {
      case RunDeviceAdminTest =>
        OtherTestsKeepEnrollment(AdminActive, f, apk, "DeviceAdminTest", None);
        assert EnrollmentAfterCommands(AdminActive, cmds) == EnrollmentAfterCommands(AdminActive, []);
      case ResetPasswordNycRestrictions =>
        var clear := MakeDoAndClearPasswordCommands(f);
        var call := RunTests(f, apk, "DeviceAdminPasswordTest", Some("testResetPassword_nycRestrictions"));
        assert cmds == clear + ([call] + clear);
        EnrollmentAfterCommandsConcat(AdminActive, clear, [call] + clear);
        EnrollmentAfterCommandsConcat(AdminActive, [call], clear);
        MakeDoAndClearPasswordReenrols(f, AdminActive);
        OtherTestsKeepEnrollment(AdminActive, f, apk, "DeviceAdminPasswordTest", Some("testResetPassword_nycRestrictions"));
        assert EnrollmentAfterCommands(AdminActive, [call]) == EnrollmentAfterCommands(AdminActive, []);
      case RunDeviceOwnerPasswordTest =>
        OtherTestsKeepEnrollment(OwnerActive, f, apk, "ClearPasswordTest", None);
        OtherTestsKeepEnrollment(OwnerActive, f, apk, "DeviceOwnerPasswordTest", None);
        assert EnrollmentAfterCommands(AdminActive, cmds) == EnrollmentAfterCommands(OwnerActive, cmds[1..]);
        assert EnrollmentAfterCommands(OwnerActive, cmds[1..]) == EnrollmentAfterCommands(OwnerActive, cmds[2..]);
        assert EnrollmentAfterCommands(OwnerActive, cmds[2..]) == EnrollmentAfterCommands(OwnerActive, cmds[3..]);
        assert EnrollmentAfterCommands(OwnerActive, cmds[3..]) == EnrollmentAfterCommands(OwnerActive, []);
    }
  }

  /** A scenario's clean-up test, when it passes, removes exactly the enrolment
      that scenario leaves, and changes nothing from any other state. */
  lemma CleanupCommandUnenrolls(e: Enrollment, version: int, scenario: Scenario)
    ensures Apply(e, Call(CleanupCommand(version, scenario), true))
            == if e == ScenarioEnrollment(scenario) then NotEnrolled else e
  {
    ClearingTestsDiffer();
  }

  /** The clean-up command and the uninstall, both passing, remove the
      enrolment the scenario leaves and leave any other enrolment as it was. */
  lemma CleanupClearsEnrollment(e: Enrollment, version: int, scenario: Scenario)
    ensures EnrollmentAfter(e, Succeeding([CleanupCommand(version, scenario), UninstallPackage(ApkPackage(version))]))
            == if e == ScenarioEnrollment(scenario) then NotEnrolled else e
  {
    var cmds := [CleanupCommand(version, scenario), UninstallPackage(ApkPackage(version))];
    var e' := Apply(e, Call(cmds[0], true));
    EnrollmentAfterSucceeding(e, cmds);
    CleanupCommandUnenrolls(e, version, scenario);
    assert EnrollmentAfterCommands(e, cmds) == EnrollmentAfterCommands(e', cmds[1..]);
    assert EnrollmentAfterCommands(e', cmds[1..]) == EnrollmentAfterCommands(e', []);
  }

  /** Against a device where every call succeeds, every scenario leaves the
      app's receiver neither owner nor admin. */
  lemma AllSucceedLeavesNotEnrolled(version: int, scenario: Scenario)
    ensures EnrollmentAfter(NotEnrolled, RunTestCase(true, version, scenario, []).log) == NotEnrolled
  {
    AllSucceedRun(version, scenario);
    var setUpCmds := [InstallApp(ApkFileName(version)), SetDeviceAdmin(AdminReceiverComponent(version), PrimaryUser)];
    var body := ScenarioCommands(version, scenario);
    var tail := [CleanupCommand(version, scenario), UninstallPackage(ApkPackage(version))];
    SucceedingConcat(setUpCmds + body, tail);
    EnrollmentAfterConcat(NotEnrolled, Succeeding(setUpCmds + body), Succeeding(tail));
    EnrollmentAfterSucceeding(NotEnrolled, setUpCmds + body);
    EnrollmentAfterCommandsConcat(NotEnrolled, setUpCmds, body);
    SetUpEnrolsAdmin(version);
    ScenarioLeavesEnrollment(version, scenario);
    CleanupClearsEnrollment(ScenarioEnrollment(scenario), version, scenario);
  }

  // ---------------------------------------------------------------------------
  // An owner left behind

  /** The log of the admin password test case when the owner clearing fails:
      install, enrol, promote and clear the password succeed, then
      ClearDeviceOwnerTest fails, and `tearDown` sends its two calls. */
  function OwnerLeftLog(version: int): seq<Call> {
    var f' := Fixture(true, version, PrimaryUser, false, true);
    var clear := MakeDoAndClearPasswordCommands(f');
    [ Call(InstallApp(ApkFileName(version)), true),
      Call(SetDeviceAdmin(AdminReceiverComponent(version), PrimaryUser), true),
      Call(clear[0], true), Call(clear[1], true), Call(clear[2], false),
      Call(TestClassCommand(f', "ClearDeviceAdminTest"), true),
      Call(UninstallPackage(ApkPackage(version)), true) ]
  }

  lemma OwnerLeftSetUp(version: int)
    ensures SetUp(true, version, Session([], [true, true, true, true, false]))
            == Progress(Fixture(true, version, PrimaryUser, false, false),
                        Step(Session(OwnerLeftLog(version)[..2], [true, true, false]), false))
  {
    var script := [true, true, true, true, false];
    var setUpCmds := [InstallApp(ApkFileName(version)), SetDeviceAdmin(AdminReceiverComponent(version), PrimaryUser)];
    assert Drop(script, 1) == [true, true, true, false];
    assert Drop(Drop(script, 1), 1) == [true, true, false];
    assert CheckedCalls(script, setUpCmds) == OwnerLeftLog(version)[..2];
  }

  lemma OwnerLeftScenario(version: int, log: seq<Call>)
    ensures RunScenario(Fixture(true, version, PrimaryUser, false, false), ResetPasswordNycRestrictions,
                        Session(log, [true, true, false]))
            == Progress(Fixture(true, version, PrimaryUser, false, true),
                        Step(Session(log + OwnerLeftLog(version)[2..5], []), true))
  {
    OwnerLeftClearCalls(version);
  }

  lemma OwnerLeftClearCalls(version: int)
    ensures CheckedCalls([true, true, false], MakeDoAndClearPasswordCommands(Fixture(true, version, PrimaryUser, false, true)))
            == OwnerLeftLog(version)[2..5]
  {
    var clear := MakeDoAndClearPasswordCommands(Fixture(true, version, PrimaryUser, false, true));
    assert Drop([true, true, false], 1) == [true, false];
    assert Drop([true, false], 1) == [false];
    assert CheckedCalls([false], clear[2..]) == [Call(clear[2], false)];
    assert CheckedCalls([true, false], clear[1..]) == [Call(clear[1], true), Call(clear[2], false)];
  }

  lemma OwnerLeftRun(version: int)
    ensures RunTestCase(true, version, ResetPasswordNycRestrictions, [true, true, true, true, false])
            == Outcome(OwnerLeftLog(version), true)
  {
    var f' := Fixture(true, version, PrimaryUser, false, true);
    var log := OwnerLeftLog(version);
    OwnerLeftSetUp(version);
    OwnerLeftScenario(version, log[..2]);
    var down := [TestClassCommand(f', "ClearDeviceAdminTest"), UninstallPackage(ApkPackage(version))];
    assert TearDownCommands(f') == down;
    var s2 := Session(log[..2] + log[2..5], []);
    assert TearDown(f', s2).log == s2.log + Succeeding(down);
    assert s2.log + Succeeding(down) == log;
  }

  lemma OwnerLeftEnrollment(version: int)
    ensures EnrollmentAfter(NotEnrolled, OwnerLeftLog(version)) == OwnerActive
  {
    var f' := Fixture(true, version, PrimaryUser, false, true);
    var log := OwnerLeftLog(version);
    OtherTestsKeepEnrollment(OwnerActive, f', ApkPackage(version), "ClearPasswordTest", None);
    ClearingTestsDiffer();
    assert EnrollmentAfter(NotEnrolled, log) == EnrollmentAfter(NotEnrolled, log[1..]);
    assert EnrollmentAfter(NotEnrolled, log[1..]) == EnrollmentAfter(AdminActive, log[2..]);
    assert EnrollmentAfter(AdminActive, log[2..]) == EnrollmentAfter(OwnerActive, log[3..]);
    assert EnrollmentAfter(OwnerActive, log[3..]) == EnrollmentAfter(OwnerActive, log[4..]);
    assert EnrollmentAfter(OwnerActive, log[4..]) == EnrollmentAfter(OwnerActive, log[5..]);
    assert EnrollmentAfter(OwnerActive, log[5..]) == EnrollmentAfter(OwnerActive, log[6..]);
    assert EnrollmentAfter(OwnerActive, log[6..]) == EnrollmentAfter(OwnerActive, log[7..]);
  }

  /** The admin password test schedules only the admin clean-up, yet
      `makeDoAndClearPassword` promotes the receiver to owner first. When the
      owner clearing then fails, the test fails and `tearDown` never clears
      the owner, so the receiver stays device owner after the test case. */
  lemma PasswordTestCanLeaveOwner(version: int)
    ensures var o := RunTestCase(true, version, ResetPasswordNycRestrictions, [true, true, true, true, false]);
            o.failed && EnrollmentAfter(NotEnrolled, o.log) == OwnerActive
  {
    OwnerLeftRun(version);
    OwnerLeftEnrollment(version);
  }

  /** As written, the admin password test's `tearDown` leaves an owner in
      place even when every clean-up call passes. */
  lemma PasswordTestTearDownKeepsOwner(f: Fixture, testMethod: string, s: Session)
    requires f.hasFeature && !f.clearDeviceOwnerInTearDown
    ensures EnrollmentAfter(OwnerActive, Succeeding(TearDownCommands(DeviceAdminPasswordTest(f, testMethod, s).fixture)))
            == OwnerActive
  {
    var f' := DeviceAdminPasswordTest(f, testMethod, s).fixture;
    var down := TearDownCommands(f');
    ClearingTestsDiffer();
    EnrollmentAfterSucceeding(OwnerActive, down);
    assert down == [TestClassCommand(f', "ClearDeviceAdminTest"), UninstallPackage(ApkPackage(f.apiVersion))];
    assert EnrollmentAfterCommands(OwnerActive, down) == EnrollmentAfterCommands(OwnerActive, down[1..]);
    assert EnrollmentAfterCommands(OwnerActive, down[1..]) == EnrollmentAfterCommands(OwnerActive, []);
  }

  /** The admin password test with the owner clean-up scheduled as well, before
      its first call: the same calls and outcome, with both flags set. */
  function DeviceAdminPasswordTestClearingOwner(f: Fixture, testMethod: string, s: Session): (p: Progress)
    requires f.hasFeature
    ensures p.fixture == f.(deactivateInTearDown := true, clearDeviceOwnerInTearDown := true)
    ensures p.step == DeviceAdminPasswordTest(f, testMethod, s).step
  {
    var p := DeviceAdminPasswordTest(f, testMethod, s);
    Progress(p.fixture.(clearDeviceOwnerInTearDown := true), p.step)
  }

  /** With the owner clean-up scheduled, a `tearDown` whose calls pass leaves
      the receiver unenrolled, whatever state the test left it in. */
  lemma ClearingOwnerTearDownUnenrolls(f: Fixture, testMethod: string, s: Session, e: Enrollment)
    requires f.hasFeature
    ensures EnrollmentAfter(e, Succeeding(TearDownCommands(DeviceAdminPasswordTestClearingOwner(f, testMethod, s).fixture)))
            == NotEnrolled
  {
    var f' := DeviceAdminPasswordTestClearingOwner(f, testMethod, s).fixture;
    var down := TearDownCommands(f');
    ClearingTestsDiffer();
    EnrollmentAfterSucceeding(e, down);
    assert down == [TestClassCommand(f', "ClearDeviceOwnerTest"), TestClassCommand(f', "ClearDeviceAdminTest"),
                    UninstallPackage(ApkPackage(f.apiVersion))];
    var e1 := Apply(e, Call(down[0], true));
    var e2 := Apply(e1, Call(down[1], true));
    assert e1 != OwnerActive;
    assert e2 == NotEnrolled;
    assert EnrollmentAfterCommands(e, down) == EnrollmentAfterCommands(e1, down[1..]);
    assert EnrollmentAfterCommands(e1, down[1..]) == EnrollmentAfterCommands(e2, down[2..]);
    assert EnrollmentAfterCommands(e2, down[2..]) == EnrollmentAfterCommands(e2, []);
  }
}
