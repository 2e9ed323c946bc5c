/** The worker thread of `ota.rs`: one request at a time, until it reboots. */
module OtaWorker {
  import opened Basics
  import opened OtaManifest
  import opened Ota

  /** Ready to install: checked, newer than what runs, `min_version` met. */
  predicate Installable(current: string, m: Manifest) {
    Acceptable(m) && Decide(current, m) == UpdateDecision.Install
  }

  /** Image `k` the boot slot was switched to is the one manifest `k` promised. */
  ghost predicate Vouched(b: Build, images: seq<seq<U8>>, ms: seq<Manifest>) {
    && |images| == |ms|
    && forall k :: 0 <= k < |ms| ==> Installable(b.version, ms[k]) && Genuine(b, images[k], ms[k])
  }

  /** Neither modem token nor driver is left, so no WiFi until the next boot. */
  predicate Stranded(r: Radio) { !r.modem && !r.driver && !r.up }

  /** A connect attempt strands the radio exactly when the driver was created but
      could not be wrapped; from there no attempt succeeds. */
  lemma StrandedIff(r: Radio, e: WifiEnv)
    requires Owned(r)
    ensures Owned(Connect(r, e).1) && (Connect(r, e).0 ==> Connect(r, e).1.driver)
    ensures Stranded(Connect(r, e).1) <==>
            Stranded(r) || (!r.driver && r.modem && e.hasSsid && e.driverOk && !e.wrapOk)
    ensures Stranded(r) ==> !Connect(r, e).0
  {
  }

  /** Exactly when a connect attempt ends connected. */
  lemma ConnectIff(r: Radio, e: WifiEnv)
    requires Owned(r)
    ensures Connect(r, e).0 <==>
            || (r.up && e.stillConnected)
            || (e.hasSsid && (r.driver || (r.modem && e.driverOk && e.wrapOk)) && e.configOk && (r.up || e.startOk) && e.linkOk)
    ensures Connect(r, e).0 ==> Connect(r, e).1 == Radio(false, true, true)
  {
  }

  /** Releasing the driver gives the peripheral back: unless stranded, the next
      attempt starts from the modem token. */
  lemma DisconnectReturnsModem(r: Radio)
    requires Owned(r)
    ensures Owned(Disconnect(r)) && Disconnect(r) == Radio(!Stranded(r), false, false)
  {
  }

  /** A check that ends with an update on offer. */
  predicate Offers(b: Build, r: Radio, e: CheckEnv) {
    Connect(r, e.wifi).0 && e.fetched && e.decoded.Some? && Installable(b.version, e.decoded.value)
  }

  /** An install of `m` that ends in a reboot. */
  predicate Completes(b: Build, r: Radio, m: Manifest, e: InstallEnv)
    requires IsSha256(m.sha256)
  {
    !e.moving && Connect(r, e.wifi).0 && Installs(b, m, e.http, e.heap, e.faults)
  }

  /** The rider, or the boot policy, asked for an install. */
  predicate AsksInstall(e: Event) { e.Install? || (e.Check? && e.install) }

  /** What the status says after a check that decided on the manifest `m`. */
  predicate Reports(s: Status, current: string, m: Manifest) {
    match Decide(current, m)
    case Install => s.state == Available && s.available == Some(m.version) && s.error == None
    case UpToDate => s.state == OtaState.UpToDate && s.available == None && s.error == None
    case TooOld(v) => s.state == Failed && s.available == Some(m.version) && s.error == Some(NeedsUsb(v))
  }

  /** The images behind the switches report the versions of their manifests, each
      above the number of the build that installed it, and have size and hash right. */
  lemma SwitchedImages(b: Build, images: seq<seq<U8>>, ms: seq<Manifest>, k: nat)
    requires Vouched(b, images, ms) && k < |images|
    ensures |images[k]| == ms[k].size >= APP_DESC_END && b.sha(images[k]) == Digest(ms[k].sha256)
    ensures b.describe(images[k][..APP_DESC_END]) == Some((b.project, ms[k].version))
    ensures Rank(ms[k].version) > Rank(b.version)
    ensures ms[k].minVersion.Some? ==> Rank(b.version) >= Rank(ms[k].minVersion.value)
  {
    hide Rank, Decide, Digest;
    assert Installable(b.version, ms[k]) && Genuine(b, images[k], ms[k]);
    InstallIff(b.version, ms[k]);
  }

  lemma InstallableClimbs(current: string, m: Manifest)
    requires Installable(current, m)
    ensures Rank(current) < Rank(m.version)
  {
    InstallIff(current, m);
  }

  /** Each build in the chain was installed, over the air, by the one before. */
  predicate UpdateChain(versions: seq<string>, ms: seq<Manifest>) {
    |versions| == |ms| + 1 &&
    forall k :: 0 <= k < |ms| ==> Installable(versions[k], ms[k]) && ms[k].version == versions[k + 1]
  }

  /** Over any chain of updates the version numbers strictly climb. */
  lemma {:induction false} VersionsClimb(versions: seq<string>, ms: seq<Manifest>, i: nat, j: nat)
    requires UpdateChain(versions, ms) && i < j < |versions|
    ensures Rank(versions[i]) < Rank(versions[j])
  {
    hide Rank, Installable, ParseVersion;
    InstallableClimbs(versions[j - 1], ms[j - 1]);
    if i < j - 1 {
      VersionsClimb(versions, ms, i, j - 1);
    }
  }

  lemma VouchedSnoc(b: Build, images: seq<seq<U8>>, ms: seq<Manifest>, image: seq<U8>, m: Manifest)
    requires Vouched(b, images, ms) && Installable(b.version, m) && Genuine(b, image, m)
    ensures Vouched(b, images + [image], ms + [m])
  {
  }

  class Worker {
    const build: Build
    const dev: Device
    var radio: Radio
    var manifest: Option<Manifest>
    var status: Status
    var pendingVerify: bool
    /** Every progress value the current install published. */
    var published: seq<U8>
    /** The manifests behind the boot-slot switches so far. */
    ghost var installed: seq<Manifest>

    ghost predicate Valid()
      reads this, dev
    {
      && PhaseOf(dev.log) == Idle
      && (manifest.Some? ==> Installable(build.version, manifest.value))
      && Vouched(build, Booted(dev.log), installed)
      && Owned(radio)
      && (status.state == Available ==> manifest.Some? && status.available == Some(manifest.value.version))
      && Rising(published)
    }

    constructor (build: Build, dev: Device, pendingVerify: bool)
      requires dev.log == []
      ensures Valid() && this.build == build && this.dev == dev && installed == []
      ensures radio == Radio(true, false, false) && manifest.None?
    {
      this.build, this.dev, this.pendingVerify := build, dev, pendingVerify;
      radio := Radio(true, false, false);
      manifest := None;
      status := Status(Resting, 0, None, None, None, None, None, false);
      published := [];
      installed := [];
    }

    method Fail(e: OtaError)
      modifies this`status
      ensures status == old(status).(state := Failed, error := Some(e))
    {
      status := status.(state := Failed, error := Some(e));
    }

    method WifiConnect(e: WifiEnv) returns (ok: bool)
      modifies this`radio
      ensures (ok, radio) == Connect(old(radio), e)
    {
      if radio.up && radio.driver && e.stillConnected {
        return true;
      }
      if !e.hasSsid {
        return false;
      }
      if !radio.driver {
        if !radio.modem {
          return false;
        }
        radio := radio.(modem := false);
        if !e.driverOk {
          radio := radio.(modem := true);
          return false;
        }
        if !e.wrapOk {
          return false;
        }
        radio := radio.(driver := true);
      }
      if !e.configOk {
        return false;
      }
      if !radio.up {
        if !e.startOk {
          return false;
        }
        radio := radio.(up := true);
      }
      return e.linkOk;
    }

    /** Fetch and check the manifest; true when an install is possible. */
    method DoCheck(e: CheckEnv) returns (installable: bool)
      requires Valid()
      modifies this`status, this`radio, this`manifest
      ensures Valid() && radio == Connect(old(radio), e.wifi).1
      ensures installable <==>
              Connect(old(radio), e.wifi).0 && e.fetched && e.decoded.Some? && Installable(build.version, e.decoded.value)
      ensures manifest == if Connect(old(radio), e.wifi).0 && e.fetched && e.decoded.Some? && Acceptable(e.decoded.value)
                          then (if installable then e.decoded else None) else old(manifest)
      ensures installable == Offers(build, old(radio), e)
      ensures !Connect(old(radio), e.wifi).0 ==> status.state == Failed && status.error == Some(NoWifi)
      ensures Connect(old(radio), e.wifi).0 && !e.fetched ==> status.state == Failed && status.error == Some(FetchFailed)
      ensures Connect(old(radio), e.wifi).0 && e.fetched ==>
                if Parse(e.decoded).Ok? then Reports(status, build.version, e.decoded.value)
                else status.state == Failed && status.error == Some(BadManifest(Parse(e.decoded).error))
      ensures var reached := Connect(old(radio), e.wifi).0;
              var accepted := reached && e.fetched && e.decoded.Some? && Acceptable(e.decoded.value);
              && status.lastCheck == (if reached then Some(e.uptime) else old(status).lastCheck)
              && status.lastCheckOk == (if reached then accepted else old(status).lastCheckOk)
              && status.notes == (if accepted then e.decoded.value.notes else old(status).notes)
              && status.size == (if accepted then Some(e.decoded.value.size) else old(status).size)
    {
      status := status.(state := Connecting, progress := 0, error := None);
      var up := WifiConnect(e.wifi);
      if !up {
        Fail(NoWifi);
        return false;
      }
      status := status.(state := Checking);
      if !e.fetched {
        Fail(FetchFailed);
        status := status.(lastCheck := Some(e.uptime), lastCheckOk := false);
        return false;
      }
      var parsed := Parse(e.decoded);
      if parsed.Err? {
        Fail(BadManifest(parsed.error));
        status := status.(lastCheck := Some(e.uptime), lastCheckOk := false);
        return false;
      }
      installable := Judge(parsed.value, e.uptime);
    }

    /** Decide on a manifest that passed every check, and remember it if installable. */
    method Judge(m: Manifest, uptime: U32) returns (installable: bool)
      modifies this`status, this`manifest
      ensures installable <==> Decide(build.version, m) == UpdateDecision.Install
      ensures manifest == if installable then Some(m) else None
      ensures old(status).error == None ==> Reports(status, build.version, m)
      ensures status.size == Some(m.size) && status.notes == m.notes
      ensures status.lastCheck == Some(uptime) && status.lastCheckOk
    {
      var decision := Decide(build.version, m);
      installable := decision == UpdateDecision.Install;
      status := status.(lastCheck := Some(uptime), lastCheckOk := true, notes := m.notes, size := Some(m.size));
      match decision {
        case Install => status := status.(state := Available, available := Some(m.version));
        case UpToDate => status := status.(state := OtaState.UpToDate, available := None);
        case TooOld(v) => status := status.(state := Failed, available := Some(m.version), error := Some(NeedsUsb(v)));
      }
      manifest := if installable then Some(m) else None;
    }

    /** Install the stored manifest's image; true when the device reboots into it. */
    method DoInstall(e: InstallEnv) returns (rebooting: bool)
      requires Valid()
      modifies this, dev
      ensures Valid()
      ensures rebooting <==>
              && old(manifest).Some? && !e.moving && Connect(old(radio), e.wifi).0
              && Installs(build, old(manifest).value, e.http, e.heap, e.faults)
      ensures rebooting ==> Booted(dev.log) == Booted(old(dev.log)) + [Concat(e.http.chunks)]
      ensures rebooting ==> installed == old(installed) + [old(manifest).value] && status.state == Rebooting && status.progress == 100
      ensures !rebooting ==> Booted(dev.log) == Booted(old(dev.log)) && installed == old(installed) && status.state == Failed
      ensures old(manifest).None? ==> status.error == Some(NothingToInstall)
      ensures old(manifest).Some? && e.moving ==> status.error == Some(Moving)
      ensures old(manifest).Some? && !e.moving && !Connect(old(radio), e.wifi).0 ==> status.error == Some(NoWifi)
      ensures if old(manifest).Some? && !e.moving && Connect(old(radio), e.wifi).0
              then !rebooting ==>
                && manifest == None && status.error.Some?
                && Explains(build, old(manifest).value, e.http, e.heap, e.faults, status.error.value)
              else dev.log == old(dev.log) && manifest == old(manifest)
      ensures pendingVerify == old(pendingVerify)
      ensures radio == if old(manifest).Some? && !e.moving then Connect(old(radio), e.wifi).1 else old(radio)
    {
      hide Installs, Explains, Installable, Rising, Vouched, PhaseOf, Booted;
      if manifest.None? {
        Fail(NothingToInstall);
        return false;
      }
      var m := manifest.value;
      if e.moving {
        Fail(Moving);
        return false;
      }
      var up := WifiConnect(e.wifi);
      if !up {
        Fail(NoWifi);
        return false;
      }
      rebooting := InstallNow(m, e);
    }

    /** The install proper, once nothing stands in its way. */
    method InstallNow(m: Manifest, e: InstallEnv) returns (rebooting: bool)
      requires Valid() && manifest == Some(m)
      modifies this`status, this`published, this`installed, this`manifest, dev
      ensures Valid()
      ensures !rebooting ==>
                manifest == None && status.error.Some? && Explains(build, m, e.http, e.heap, e.faults, status.error.value)
      ensures rebooting <==> Installs(build, m, e.http, e.heap, e.faults)
      ensures rebooting ==> Booted(dev.log) == Booted(old(dev.log)) + [Concat(e.http.chunks)]
      ensures rebooting ==> installed == old(installed) + [m] && status.state == Rebooting && status.progress == 100
      ensures !rebooting ==> Booted(dev.log) == Booted(old(dev.log)) && installed == old(installed) && status.state == Failed
    {
      hide ParseVersion, Decide, Genuine, Unhindered, Explains;
      status := status.(state := Downloading, progress := 0, error := None);
      published := [];
      var r := DownloadAndWrite(m, e.http, e.heap, e.faults);
      if r.Err? {
        Fail(r.error);
        manifest := None;
        return false;
      }
      VouchedSnoc(build, Booted(old(dev.log)), installed, Concat(e.http.chunks), m);
      installed := installed + [m];
      status := status.(state := Rebooting, progress := 100);
      return true;
    }

    /** One request; true when it ends in a reboot. */
    method Handle(e: Event) returns (rebooting: bool)
      requires Valid()
      modifies this, dev
      ensures Valid()
      ensures rebooting ==> |installed| == |old(installed)| + 1 && installed[..|old(installed)|] == old(installed)
      ensures !rebooting ==> installed == old(installed)
      ensures Stranded(old(radio)) ==> Stranded(radio) && !rebooting
      ensures rebooting <==>
              match e
              case Check(install, check, inst) =>
                && install && Offers(build, old(radio), check)
                && Completes(build, Connect(old(radio), check.wifi).1, check.decoded.value, inst)
              case Install(check, inst) =>
                if old(manifest).Some? then Completes(build, old(radio), old(manifest).value, inst)
                else Offers(build, old(radio), check)
                     && Completes(build, Connect(old(radio), check.wifi).1, check.decoded.value, inst)
              case _ => false
      ensures e.TestWifi? || e.MarkValid? || e.Timeout? || (e.Check? && !e.install) ==> dev.log == old(dev.log)
      ensures e.TestWifi? || e.MarkValid? || e.Timeout? ==> manifest == old(manifest) && status == old(status)
      ensures pendingVerify == (old(pendingVerify) && !(e.MarkValid? && e.ok))
      ensures e.Check? && !e.install ==> radio == Connect(old(radio), e.check.wifi).1
      ensures e.TestWifi? ==> radio == Connect(old(radio), e.wifi).1
      ensures e.MarkValid? ==> radio == old(radio)
      ensures e.Timeout? ==> radio == if old(radio).driver && e.idleLong then Disconnect(old(radio)) else old(radio)
    {
      rebooting := false;
      match e {
        case Check(install, check, inst) =>
          var installable := DoCheck(check);
          if installable && install {
            rebooting := DoInstall(inst);
          }
        case Install(check, inst) =>
          var ready := manifest.Some?;
          if !ready {
            ready := DoCheck(check);
          }
          if ready {
            rebooting := DoInstall(inst);
          }
        case TestWifi(wifi) =>
          var _ := WifiConnect(wifi);
        case MarkValid(ok) =>
          if pendingVerify && ok {
            pendingVerify := false;
          }
        case Timeout(idleLong) =>
          if radio.driver && idleLong {
            radio := Disconnect(radio);
          }
      }
    }

    /** Serve requests until the queue closes or an install reboots the device:
        whatever the requests and failures, at most one image is activated, last,
        and every activation is vouched for. */
    method Run(events: seq<Event>) returns (rebooted: bool)
      requires Valid()
      modifies this, dev
      ensures Valid()
      ensures rebooted ==> |installed| == |old(installed)| + 1 && installed[..|old(installed)|] == old(installed)
      ensures !rebooted ==> installed == old(installed)
      ensures Stranded(old(radio)) ==> Stranded(radio) && !rebooted
      ensures rebooted ==> exists i :: 0 <= i < |events| && AsksInstall(events[i])
      ensures (forall i :: 0 <= i < |events| ==> !AsksInstall(events[i])) ==> dev.log == old(dev.log)
    {
      for i := 0 to |events|
        invariant Valid() && installed == old(installed)
        invariant Stranded(old(radio)) ==> Stranded(radio)
        invariant (forall k :: 0 <= k < i ==> !AsksInstall(events[k])) ==> dev.log == old(dev.log)
      {
        var rebooting := Handle(events[i]);
        if rebooting {
          return true;
        }
      }
      return false;
    }

    /** Stream the image into the inactive slot and activate it. */
    method DownloadAndWrite(m: Manifest, http: Http, heap: U32, f: Faults) returns (r: Result<(), OtaError>)
      requires PhaseOf(dev.log) == Idle && Acceptable(m) && published == []
      modifies this`status, this`published, dev
      ensures PhaseOf(dev.log) == Idle
      ensures r.Ok? <==> Installs(build, m, http, heap, f)
      ensures r.Err? ==> Explains(build, m, http, heap, f, r.error)
      ensures Booted(dev.log) == if r.Ok? then Booted(old(dev.log)) + [Concat(http.chunks)] else Booted(old(dev.log))
      ensures r.Ok? ==> SlotOf(dev.log) == Concat(http.chunks)
      ensures UnverifiedWrites(dev.log) > UnverifiedWrites(old(dev.log)) <==>
              ReachesBody(m, http, heap, f) && ShortFirstRead(m, http.chunks, f)
      ensures dev.log != old(dev.log) ==>
                http.Response? && SlotOf(dev.log) <= Concat(http.chunks) && !Refuted(build, m, SlotOf(dev.log))
      ensures Rising(published) && (r.Ok? ==> published != [] && published[|published| - 1] == 100)
      ensures status.available == old(status).available
      ensures status.state == old(status).state || status.state == Verifying
    {
      hide PhaseOf, SlotOf, Booted, UnverifiedWrites, Genuine, Faulty, Refuted, StreamFailure, ReachesBody, ParseVersion;
      var refused := Refusal(m, http, heap, f);
      if refused.Some? {
        return Err(refused.value);
      }
      var update := new SlotWriter(dev);
      r := Stream(update, m, http, f);
      if r.Err? {
        StreamExplains(build, m, http, heap, f, r.error);
        update.Drop();
        return;
      }
      status := status.(state := Verifying);
      r := update.FinishAndActivate(f.endOk, f.bootOk);
    }

    /** What stops the download before its body is read. */
    method Refusal(m: Manifest, http: Http, heap: U32, f: Faults) returns (e: Option<OtaError>)
      requires IsSha256(m.sha256)
      ensures e.None? <==> ReachesBody(m, http, heap, f)
      ensures e.None? ==> http.Response? && f.beginOk
      ensures e.Some? ==> Explains(build, m, http, heap, f, e.value)
    {
      if http.Unreachable? {
        return Some(HttpFailed);
      }
      if http.status != 200 {
        return Some(HttpStatus(http.status));
      }
      if http.contentLength.Some? && http.contentLength.value != m.size {
        return Some(LengthMismatch(http.contentLength.value));
      }
      if heap < MIN_FREE_HEAP {
        return Some(LowHeap);
      }
      return if f.beginOk then None else Some(BeginFailed);
    }

    /** Collect the head until it can be inspected; `before` is what was read. */
    method CheckHead(head: seq<U8>, checked: bool, chunk: seq<U8>, m: Manifest, ghost before: seq<U8>)
      returns (ok: bool, head': seq<U8>, checked': bool)
      requires HeadState(build, m, before, head, checked)
      ensures ok ==> HeadState(build, m, before + chunk, head', checked')
      ensures !ok ==> |before + chunk| >= APP_DESC_END && !DescriptorOk(build, (before + chunk)[..APP_DESC_END], m)
    {
      ok, head', checked' := true, head, checked;
      if checked {
        assert (before + chunk)[..APP_DESC_END] == before[..APP_DESC_END];
      } else {
        head' := head + chunk;
        if |head'| >= APP_DESC_END {
          if !DescriptorOk(build, head'[..APP_DESC_END], m) {
            ok := false;
            return;
          }
          checked' := true;
          head' := [];
        }
      }
    }

    /** Publish the percentage when it changed. */
    method SetProgress(before: U32, total: U32, size: U32, lastPct: U8) returns (pct: U8)
      requires 0 < size && before <= total <= size && lastPct as int == Percent(before, size)
      requires LastPublished(published, lastPct)
      modifies this`status, this`published
      ensures pct as int == Percent(total, size) && LastPublished(published, pct)
      ensures status.available == old(status).available && status.state == old(status).state
    {
      PercentRises(before, total, size);
      pct := Percent(total, size);
      if pct != lastPct {
        status := status.(progress := pct);
        published := published + [pct];
      }
    }

    /** The read loop: header check, hash, write, progress; then the final checks. */
    method Stream(update: SlotWriter, m: Manifest, http: Http, f: Faults) returns (r: Result<(), OtaError>)
      requires update.dev == dev && update.open && PhaseOf(dev.log) == Open && SlotOf(dev.log) == []
      requires IsSha256(m.sha256) && m.size > 0 && http.Response? && published == []
      modifies this`status, this`published, dev
      ensures PhaseOf(dev.log) == Open && Booted(dev.log) == Booted(old(dev.log))
      ensures r.Ok? <==>
              && !http.broken && (f.failWriteAt.Some? ==> f.failWriteAt.value >= |http.chunks|)
              && Genuine(build, Concat(http.chunks), m)
      ensures r.Ok? ==> SlotOf(dev.log) == Concat(http.chunks)
      ensures r.Err? ==> StreamFailure(build, m, http, f, r.error)
      ensures SlotOf(dev.log) <= Concat(http.chunks) && !Refuted(build, m, SlotOf(dev.log))
      ensures UnverifiedWrites(dev.log) > UnverifiedWrites(old(dev.log)) <==> ShortFirstRead(m, http.chunks, f)
      ensures Rising(published) && (r.Ok? ==> published != [] && published[|published| - 1] == 100)
      ensures status.available == old(status).available && status.state == old(status).state
    {
      hide PhaseOf, SlotOf, Booted, UnverifiedWrites, Digest, IsSha256, Faulty, Genuine, DescriptorOk;
      var chunks := http.chunks;
      ghost var stream := Concat(chunks);
      var hashed: seq<U8> := [];
      var head: seq<U8> := [];
      var headChecked := false;
      var total: U32 := 0;
      var lastPct: U8 := 0;
      for i := 0 to |chunks|
        invariant PhaseOf(dev.log) == Open && Booted(dev.log) == Booted(old(dev.log))
        invariant hashed == Concat(chunks[..i]) == SlotOf(dev.log)
        invariant i > 0 ==> chunks[0] <= hashed
        invariant UnverifiedWrites(dev.log) >= UnverifiedWrites(old(dev.log))
        invariant UnverifiedWrites(dev.log) > UnverifiedWrites(old(dev.log)) <==>
                  i > 0 && |chunks[0]| < APP_DESC_END
        invariant total as int == |hashed| <= m.size
        invariant HeadState(build, m, hashed, head, headChecked)
        invariant f.failWriteAt.Some? ==> f.failWriteAt.value >= i
        invariant lastPct as int == Percent(total, m.size) && LastPublished(published, lastPct)
        invariant status.available == old(status).available && status.state == old(status).state
      {
        var chunk := chunks[i];
        ghost var now := hashed + chunk;
        ConcatSnoc(chunks, i);
        ConcatPrefix(chunks, i);
        ConcatPrefix(chunks, i + 1);
        if total as int + |chunk| >= 0x1_0000_0000 {
          FaultStays(build, m, now, stream, Overflow);
          return Err(Overflow);
        }
        var before := total;
        total := total + |chunk|;
        if total > m.size {
          FaultStays(build, m, now, stream, TooLong);
          return Err(TooLong);
        }
        var ok;
        ok, head, headChecked := CheckHead(head, headChecked, chunk, m, hashed);
        if !ok {
          FaultStays(build, m, now, stream, BadDescriptor);
          return Err(BadDescriptor);
        }
        hashed := hashed + chunk;
        var wrote := update.Write(chunk, !(f.failWriteAt.Some? && f.failWriteAt.value == i));
        if !wrote {
          return Err(WriteFailed);
        }
        lastPct := SetProgress(before, total, m.size, lastPct);
      }
      assert chunks[..|chunks|] == chunks;
      if http.broken {
        return Err(ReadFailed);
      }
      PercentRises(total, total, m.size);
      r := FinalChecks(m, headChecked, total, head, hashed);
    }

    /** After the last byte: descriptor seen, size and hash as promised. */
    method FinalChecks(m: Manifest, headChecked: bool, total: U32, ghost head: seq<U8>, hashed: seq<U8>)
      returns (r: Result<(), OtaError>)
      requires IsSha256(m.sha256) && total as int == |hashed| && HeadState(build, m, hashed, head, headChecked)
      ensures r.Ok? <==> Genuine(build, hashed, m)
      ensures r.Ok? ==> total == m.size
      ensures r.Err? ==> Faulty(build, m, hashed, r.error)
    {
      if !headChecked {
        return Err(TooShort);
      }
      if total != m.size {
        return Err(WrongSize(total));
      }
      var digest := Sha256Bytes(m.sha256);
      if build.sha(hashed) != digest {
        return Err(ShaMismatch);
      }
      return Ok(());
    }
  }

  /** What the loop knows about the head after reading `read`. */
  predicate HeadState(b: Build, m: Manifest, read: seq<U8>, head: seq<U8>, checked: bool) {
    && (checked <==> |read| >= APP_DESC_END)
    && (checked ==> DescriptorOk(b, read[..APP_DESC_END], m))
    && (!checked ==> head == read)
  }

  /** No continuation of `part` can be the promised image. */
  predicate Refuted(b: Build, m: Manifest, part: seq<U8>) {
    |part| > m.size || (|part| >= APP_DESC_END && !DescriptorOk(b, part[..APP_DESC_END], m))
  }

  /** What is already wrong with a part is wrong with the whole, however it goes on. */
  lemma FaultStays(b: Build, m: Manifest, part: seq<U8>, stream: seq<U8>, e: OtaError)
    requires IsSha256(m.sha256) && part <= stream
    requires match e
             case TooLong => |part| > m.size
             case Overflow => |part| >= 0x1_0000_0000
             case BadDescriptor => |part| >= APP_DESC_END && !DescriptorOk(b, part[..APP_DESC_END], m)
             case _ => false
    ensures Faulty(b, m, stream, e) && !Genuine(b, stream, m)
  {
    if |part| >= APP_DESC_END {
      assert part[..APP_DESC_END] == stream[..APP_DESC_END];
    }
  }

  predicate LastPublished(p: seq<U8>, last: U8) {
    Rising(p) && last == (if p == [] then 0 else p[|p| - 1])
  }
}
