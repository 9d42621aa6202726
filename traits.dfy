/** The `HealthCheck` service of the traits tutorial: an on/off flag and its status text. */
module Traits {

  const ONLINE: string := "HealthCheck is online"
  const OFFLINE: string := "HealthCheck is offline"

  class HealthCheck {
    var isOnline: bool

    /** The struct literal `HealthCheck { is_online }`. */
    constructor (isOnline: bool)
      ensures this.isOnline == isOnline
    {
      this.isOnline := isOnline;
    }

    /** `activate`: the service is online afterwards, whatever it was before. */
    method Activate()
      modifies this
      ensures isOnline
    {
      isOnline := true;
    }

    /** `deactivate`: the service is offline afterwards, whatever it was before. */
    method Deactivate()
      modifies this
      ensures !isOnline
    {
      isOnline := false;
    }

    /** `status`: reads the flag and changes nothing. */
    function Status(): (s: string)
      reads this
      ensures s == ONLINE <==> isOnline
      ensures s == OFFLINE <==> !isOnline
    {
      if isOnline then ONLINE else OFFLINE
    }
  }

  /**
   * `sample`: activate, read the status, deactivate, read it again. The two
   * statuses it prints are returned.
   */
  method Sample(service: HealthCheck) returns (first: string, second: string)
    modifies service
    ensures first == ONLINE && second == OFFLINE
    ensures !service.isOnline
  {
    service.Activate();
    first := service.Status();
    service.Deactivate();
    second := service.Status();
  }

  /** `run`: a service that starts online ends offline after `sample`; so does one that starts offline. */
  method Run() returns (endsOnline: bool, endsOnlineFromOffline: bool)
    ensures !endsOnline && !endsOnlineFromOffline
  {
    var service := new HealthCheck(true);
    var _, _ := Sample(service);
    endsOnline := service.isOnline;
    var other := new HealthCheck(false);
    var _, _ := Sample(other);
    endsOnlineFromOffline := other.isOnline;
  }
}
