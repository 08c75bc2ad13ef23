/** What a boot finds in the profiles that come back from flash: nothing is plugged
    in yet, so every device can be taken in. */
module StorageRestart {
  import opened Options
  import opened Bits
  import opened InputProfiles
  import opened StorageImage
  import opened StorageCodec

  /** Not plugged in, no movement left over, and ready for the shortcut. */
  predicate AtRest(p: InputProfile) {
    && !p.connected && p.armed
    && p.remainders.x == 0 && p.remainders.y == 0 && p.remainders.wheel == 0 && p.remainders.pan == 0
  }

  ghost predicate AllAtRest(r: Registry) {
    WellFormed(r) && forall i :: 0 <= i < |r.profiles| ==> AtRest(r.profiles[i])
  }

  lemma DecodedProfileIsAtRest(r: seq<Byte>)
    requires |r| == PROFILE_LEN && DecodeProfile(r).Success?
    ensures AtRest(DecodeProfile(r).value) && 1 <= DecodeProfile(r).value.id <= CAPACITY
  {
  }

  /** A device that goes leaves its profile at rest; a new one starts with the settings
      as delivered. */
  lemma GoneIsAtRest(p: InputProfile, sequence: U64)
    ensures AtRest(InputProfiles.Disconnected(p, sequence))
    ensures InputProfiles.Disconnected(p, sequence).settings == p.settings
  {
  }

  lemma NewIsAsDelivered(r: Registry, id: Byte, identity: InputIdentity)
    ensures var p := Fresh(r, id, identity);
      && p.connected && p.armed && p.id == id && p.identity == identity && p.lastSeen == r.nextSequence
      && p.settings.mousePercent == 100 && p.settings.scrollPercent == 100 && p.settings.shortcut.key == 0
      && p.remainders == Remainders(0, 0, 0, 0)
  {
  }

  lemma AddKeepsRest(before: Registry, p: InputProfile)
    requires AllAtRest(before) && AtRest(p) && 1 <= p.id <= CAPACITY && RestoreInto(before, p).Ok?
    ensures AllAtRest(RestoreInto(before, p).value)
  {
  }

  lemma {:induction false} RestoreAllIsAtRest(profiles: seq<Result<InputProfile>>)
    requires forall i :: 0 <= i < |profiles| && profiles[i].Success? ==>
      AtRest(profiles[i].value) && 1 <= profiles[i].value.id <= CAPACITY
    requires RestoreAll(profiles).Success?
    ensures AllAtRest(RestoreAll(profiles).value)
    decreases |profiles|
  {
    if profiles != [] {
      var n := |profiles| - 1;
      RestoreAllIsAtRest(profiles[..n]);
      AddKeepsRest(RestoreAll(profiles[..n]).value, profiles[n].value);
    }
  }

  lemma ResultsAreAtRest(image: seq<Byte>, n: nat)
    requires |image| >= IMAGE_LEN && n <= CAPACITY && RestoreAll(ProfileResults(image, n)).Success?
    ensures AllAtRest(RestoreAll(ProfileResults(image, n)).value)
  {
    var results := ProfileResults(image, n);
    forall i | 0 <= i < n && results[i].Success?
      ensures AtRest(results[i].value) && 1 <= results[i].value.id <= CAPACITY
    {
      DecodedProfileIsAtRest(ProfileSlice(image, i));
    }
    RestoreAllIsAtRest(results);
  }

  lemma BodyIsAtRest(image: seq<Byte>, hostCount: nat)
    requires |image| >= IMAGE_LEN && hostCount <= HOSTS_MAX && DecodeBody(image, hostCount).Success?
    ensures AllAtRest(DecodeBody(image, hostCount).value.profiles)
  {
    ResultsAreAtRest(image, image[30]);
  }

  /** Whatever bytes a decoded image was made of, its profiles are at rest, with
      numbers and identities of their own. */
  lemma DecodedIsAtRest(image: seq<Byte>)
    requires DecodeImage(image).Success?
    ensures AllAtRest(DecodeImage(image).value.profiles)
  {
    BodyIsAtRest(image, DecodeHeader(image).value);
  }

  /** The device is taken in: under its old number if it is known, and in the least
      recently used place if the table is full. */
  ghost predicate TakenIn(r: Registry, identity: InputIdentity, out: Outcome<Byte>) {
    && out.Ok?
    && (forall i :: 0 <= i < |r.profiles| && r.profiles[i].identity == identity ==> out.value == r.profiles[i].id)
    && (!Knows(r, identity) && |r.profiles| == CAPACITY ==>
          exists i :: LeastRecent(r, i) && out.value == r.profiles[i].id)
  }

  lemma RestedTakesIn(r: Registry, identity: InputIdentity, r': Registry, out: Outcome<Byte>)
    requires AllAtRest(r) && Observed(r, identity, r', out)
    ensures TakenIn(r, identity, out)
  {
    if Knows(r, identity) {
      var i :| 0 <= i < |r.profiles| && r.profiles[i].identity == identity && out == Ok(r.profiles[i].id);
      forall j | 0 <= j < |r.profiles| && r.profiles[j].identity == identity ensures j == i {}
    } else if |r.profiles| == CAPACITY {
      assert !r.profiles[0].connected;
    }
  }

  /** So the first device after boot is always taken in, whichever it is. */
  lemma FirstDeviceIsTakenIn(image: seq<Byte>, identity: InputIdentity, r': Registry, out: Outcome<Byte>)
    requires DecodeImage(image).Success?
    requires Observed(DecodeImage(image).value.profiles, identity, r', out)
    ensures TakenIn(DecodeImage(image).value.profiles, identity, out)
  {
    DecodedIsAtRest(image);
    RestedTakesIn(DecodeImage(image).value.profiles, identity, r', out);
  }

  // ------------------------------------------------------------------- limits

  /** The ranges that the rest of the device relies on. */
  predicate InLimits(g: GlobalSettings) {
    g.bootTarget <= 4 && g.switchReleaseDelayMs <= 1000 && g.shortAction <= 3 && g.longAction <= 3 && g.veryLongAction <= 3
    && g.logLevel <= 4
  }

  predicate ProfileInLimits(p: InputProfile) {
    && p.settings.keyboardLayout <= 2
    && 10 <= p.settings.mousePercent <= 400 && 10 <= p.settings.scrollPercent <= 400
    && p.settings.consumerFrom <= 1023 && p.settings.consumerTo <= 1023
    && !(0xe0 <= p.settings.shortcut.key <= 0xe7)
    && (p.settings.shortcut.key == 0 ==> p.settings.shortcut.modifiers == 0)
  }

  lemma {:induction false} RestoreAllInLimits(profiles: seq<Result<InputProfile>>)
    requires forall i :: 0 <= i < |profiles| && profiles[i].Success? ==> ProfileInLimits(profiles[i].value)
    requires RestoreAll(profiles).Success?
    ensures forall i :: 0 <= i < |RestoreAll(profiles).value.profiles| ==> ProfileInLimits(RestoreAll(profiles).value.profiles[i])
    decreases |profiles|
  {
    if profiles != [] {
      RestoreAllInLimits(profiles[..|profiles| - 1]);
    }
  }

  lemma DecodedProfileInLimits(r: seq<Byte>)
    requires |r| == PROFILE_LEN && DecodeProfile(r).Success?
    ensures ProfileInLimits(DecodeProfile(r).value)
  {
  }

  lemma ResultsInLimits(image: seq<Byte>, n: nat)
    requires |image| >= IMAGE_LEN && n <= CAPACITY && RestoreAll(ProfileResults(image, n)).Success?
    ensures forall p :: p in RestoreAll(ProfileResults(image, n)).value.profiles ==> ProfileInLimits(p)
  {
    var results := ProfileResults(image, n);
    forall i | 0 <= i < n && results[i].Success? ensures ProfileInLimits(results[i].value) {
      DecodedProfileInLimits(ProfileSlice(image, i));
    }
    RestoreAllInLimits(results);
  }

  lemma BodyInLimits(image: seq<Byte>, hostCount: nat)
    requires |image| >= IMAGE_LEN && hostCount <= HOSTS_MAX && DecodeBody(image, hostCount).Success?
    ensures var s := DecodeBody(image, hostCount).value;
      InLimits(s.settings) && ValidState(s) && forall p :: p in s.profiles.profiles ==> ProfileInLimits(p)
  {
    ResultsInLimits(image, image[30]);
  }

  /** Whatever bytes a decoded image was made of, its settings are in their ranges, its
      hosts have numbers of their own, and the active host is one of them. */
  lemma DecodedIsInLimits(image: seq<Byte>)
    requires DecodeImage(image).Success?
    ensures var s := DecodeImage(image).value;
      InLimits(s.settings) && ValidState(s) && forall p :: p in s.profiles.profiles ==> ProfileInLimits(p)
  {
    BodyInLimits(image, DecodeHeader(image).value);
  }
}
