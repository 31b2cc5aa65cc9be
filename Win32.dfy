/** The winsvc.h constants the program uses, with their documented values. */
module Win32 {

  /** An unsigned 32-bit DWORD. */
  type DWord = x: int | 0 <= x < 0x1_0000_0000

  // Run states (SERVICE_STATUS.dwCurrentState)
  const ServiceStopped: DWord := 0x1
  const ServiceRunning: DWord := 0x4
  const ServicePaused: DWord := 0x7

  // Failure action types (SC_ACTION.Type)
  const ScActionNone: DWord := 0
  const ScActionRestart: DWord := 1
  const ScActionReboot: DWord := 2
  const ScActionRunCommand: DWord := 3

  // Start types
  const ServiceAutoStart: DWord := 0x2
  const ServiceDemandStart: DWord := 0x3
  const ServiceDisabled: DWord := 0x4

  // Error control
  const ServiceErrorNormal: DWord := 0x1

  /** SERVICE_NO_CHANGE: leave this field of the configuration as it is. */
  const ServiceNoChange: DWord := 0xFFFF_FFFF

  // Service type flags (SERVICE_STATUS_PROCESS.dwServiceType)
  const ServiceKernelDriver: bv32 := 0x1
  const ServiceFileSystemDriver: bv32 := 0x2
  const ServiceAdapter: bv32 := 0x4
  const ServiceRecognizerDriver: bv32 := 0x8
  const ServiceDriver: bv32 := 0xB
  const ServiceWin32OwnProcess: bv32 := 0x10
  const ServiceWin32ShareProcess: bv32 := 0x20
  const ServiceWin32: bv32 := 0x30
  const ServiceInteractiveProcess: bv32 := 0x100
}
