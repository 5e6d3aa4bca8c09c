/** Device status, as in src/device.rs. */
module Device {
  datatype Availability = Available | PermissionRequired | Disconnected | IdentityMismatch | Ambiguous

  datatype Activity = Idle | Busy | Monitoring | Reconnecting | Faulty
}
