/** The Device resources that both the telemetry and the alert side read. */
module Devices {
  import opened Common

  /** An alert condition; threshold is what strconv.ParseFloat makes of its value. */
  datatype AlertCondition = AlertCondition(measurement: string, operator: string, threshold: Option<real>)

  /** A Device resource; corrections hold what strconv.ParseFloat makes of each configured string. */
  datatype Device = Device(namespace: string, name: string, sensorType: string, shortAddr: string, friendlyName: string,
                           location: string, room: string, ieeeAddr: string, disabled: bool,
                           corrections: map<string, Option<real>>, alert: Option<AlertCondition>)

  /** Names are unique in a list of one namespace. */
  ghost predicate UniqueNames(devices: seq<Device>) {
    forall i, j :: 0 <= i < j < |devices| ==> devices[i].name != devices[j].name
  }
}
