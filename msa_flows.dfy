/** The Microsoft-account flows (MSA): each flow is the sequence of steps its
    constructor appends. All of them sign in, exchange the Xbox tokens and check the
    entitlements, then fetch the Minecraft profile and the skin; the create-profile and
    set-skin flows put their profile-changing steps in between and forward those steps'
    apiError signals to the flow. */
module MsaFlows {
  import Skins
  import opened Common

  /** Whether the Microsoft sign-in step refreshes a stored token or logs in anew. */
  datatype MsaAction = Refresh | Login

  /** Where an Xbox authorization step stores the token it obtains. */
  datatype TokenSlot = XboxApiToken | MojangServicesToken

  /** The steps, as opaque tags with their constructor arguments. */
  datatype Step =
    | MsaStep(action: MsaAction)
    | XboxUserStep
    | XboxAuthorizationStep(slot: TokenSlot, relyingParty: string, authorizationName: string)
    | LauncherLoginStep
    | XboxProfileStep
    | EntitlementsStep
    | MinecraftProfileStep
    | GetSkinStep
    | MinecraftProfileCreateStep(profileName: string)
    | SetSkinStep(model: Skins.Model, skinData: seq<byte>)
    | SetCapeStep(capeId: string)

  /** A step of a flow, and whether the flow re-emits the step's apiError. */
  datatype FlowStep = FlowStep(step: Step, forwardsApiError: bool)

  function Plain(s: Step): FlowStep { FlowStep(s, false) }
  function Forwarded(s: Step): FlowStep { FlowStep(s, true) }

  const XboxLiveAuthorization: Step := XboxAuthorizationStep(XboxApiToken, "http://xboxlive.com", "Xbox")
  const ServicesAuthorization: Step := XboxAuthorizationStep(MojangServicesToken, "rp://api.minecraftservices.com/", "Mojang")

  /** The seven steps every flow starts with. */
  function SignInSteps(action: MsaAction): seq<FlowStep> {
    [Plain(MsaStep(action)), Plain(XboxUserStep), Plain(XboxLiveAuthorization), Plain(ServicesAuthorization),
     Plain(LauncherLoginStep), Plain(XboxProfileStep), Plain(EntitlementsStep)]
  }

  /** The two steps every flow ends with. */
  function ProfileSteps(): seq<FlowStep> {
    [Plain(MinecraftProfileStep), Plain(GetSkinStep)]
  }

  /** The Xbox Live authorization (into the API token) comes right before the services
      one (into the services token), at positions 2 and 3; there is no other
      authorization step, and the launcher login comes only after both. */
  predicate AuthorizesInOrder(steps: seq<FlowStep>) {
    |steps| > 4 &&
    steps[2].step == XboxLiveAuthorization && steps[3].step == ServicesAuthorization &&
    (forall j :: 0 <= j < |steps| && steps[j].step.XboxAuthorizationStep? ==> j == 2 || j == 3) &&
    (forall j :: 0 <= j < |steps| && steps[j].step.LauncherLoginStep? ==> j > 3)
  }

  /** The flow ends by fetching the profile and then the skin. */
  predicate EndsWithProfileFetch(steps: seq<FlowStep>) {
    |steps| >= 2 && steps[|steps| - 2].step == MinecraftProfileStep && steps[|steps| - 1].step == GetSkinStep
  }

  /** Exactly the profile-changing steps have their apiError forwarded. */
  predicate ForwardsExactlyApiSteps(steps: seq<FlowStep>) {
    forall j :: 0 <= j < |steps| ==>
      (steps[j].forwardsApiError <==>
        steps[j].step.MinecraftProfileCreateStep? || steps[j].step.SetSkinStep? || steps[j].step.SetCapeStep?)
  }

  /** The shape every flow has. */
  predicate WellShaped(steps: seq<FlowStep>) {
    AuthorizesInOrder(steps) && EndsWithProfileFetch(steps) && ForwardsExactlyApiSteps(steps)
  }

  /** MSASilent and MSAInteractive. */
  function SignInFlow(action: MsaAction): (steps: seq<FlowStep>)
    ensures |steps| == 9 && WellShaped(steps)
    ensures steps[0].step == MsaStep(action)
    ensures forall j :: 0 <= j < |steps| ==> !steps[j].forwardsApiError
  {
    SignInSteps(action) + ProfileSteps()
  }

  /** The silent and the interactive flow differ only in their first step's action. */
  lemma SilentAndInteractiveDifferOnlyInAction()
    ensures |SignInFlow(Refresh)| == |SignInFlow(Login)|
    ensures SignInFlow(Refresh)[1..] == SignInFlow(Login)[1..]
    ensures SignInFlow(Refresh)[0] != SignInFlow(Login)[0]
  {
  }

  /** MSACreateProfile. */
  function CreateProfileFlow(profileName: string): (steps: seq<FlowStep>)
    ensures |steps| == 10 && WellShaped(steps)
    ensures steps[6].step == EntitlementsStep && steps[8].step == MinecraftProfileStep
    ensures steps[7] == Forwarded(MinecraftProfileCreateStep(profileName))
    ensures forall j :: 0 <= j < |steps| && steps[j].step.MinecraftProfileCreateStep? ==> j == 7
  {
    SignInSteps(Refresh) + [Forwarded(MinecraftProfileCreateStep(profileName))] + ProfileSteps()
  }

  /** MSASetSkin: the cape step is there iff the requested cape differs from the
      profile's current one. */
  function SetSkinFlow(skinData: seq<byte>, model: Skins.Model, capeId: string, currentCape: string): (steps: seq<FlowStep>)
    ensures |steps| == (if capeId != currentCape then 11 else 10) && WellShaped(steps)
    ensures steps[6].step == EntitlementsStep && steps[7] == Forwarded(SetSkinStep(model, skinData))
    ensures (exists j :: 0 <= j < |steps| && steps[j].step.SetCapeStep?) <==> capeId != currentCape
    ensures capeId != currentCape ==> steps[8] == Forwarded(SetCapeStep(capeId))
  {
    var steps := SignInSteps(Refresh) + [Forwarded(SetSkinStep(model, skinData))] +
      (if capeId != currentCape then [Forwarded(SetCapeStep(capeId))] else []) +
      ProfileSteps();
    assert capeId != currentCape ==> steps[8].step.SetCapeStep?;
    steps
  }

  /** An authentication flow under construction: its steps in order. */
  class AuthFlow {
    var steps: seq<FlowStep>

    /** The sign-in part every constructor appends first. */
    method AppendSignIn(action: MsaAction)
      modifies this
      ensures steps == old(steps) + SignInSteps(action)
    {
      steps := steps + [Plain(MsaStep(action))];
      steps := steps + [Plain(XboxUserStep)];
      steps := steps + [Plain(XboxLiveAuthorization)];
      steps := steps + [Plain(ServicesAuthorization)];
      steps := steps + [Plain(LauncherLoginStep)];
      steps := steps + [Plain(XboxProfileStep)];
      steps := steps + [Plain(EntitlementsStep)];
    }

    /** The profile part every constructor appends last. */
    method AppendProfileFetch()
      modifies this
      ensures steps == old(steps) + ProfileSteps()
    {
      steps := steps + [Plain(MinecraftProfileStep)];
      steps := steps + [Plain(GetSkinStep)];
    }

    constructor Silent()
      ensures steps == SignInFlow(Refresh)
    {
      steps := [];
      new;
      AppendSignIn(Refresh);
      AppendProfileFetch();
    }

    constructor Interactive()
      ensures steps == SignInFlow(Login)
    {
      steps := [];
      new;
      AppendSignIn(Login);
      AppendProfileFetch();
    }

    constructor CreateProfile(profileName: string)
      ensures steps == CreateProfileFlow(profileName)
    {
      steps := [];
      new;
      AppendSignIn(Refresh);
      steps := steps + [Forwarded(MinecraftProfileCreateStep(profileName))];
      AppendProfileFetch();
    }

    constructor SetSkin(skinData: seq<byte>, model: Skins.Model, capeId: string, currentCape: string)
      ensures steps == SetSkinFlow(skinData, model, capeId, currentCape)
    {
      steps := [];
      new;
      AppendSignIn(Refresh);
      steps := steps + [Forwarded(SetSkinStep(model, skinData))];
      if capeId != currentCape {
        steps := steps + [Forwarded(SetCapeStep(capeId))];
      }
      AppendProfileFetch();
    }
  }
}
