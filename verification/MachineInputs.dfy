/**
  The inputs of the machines that know only a frame to process and the loss of focus beside entering and leaving
  (source/Utility/StateMachine.h:14-20, source/GestureInteraction/FingerMouse.h:32-35,
  source/GestureInteraction/BasicMode.h:34-37).
 */
module MachineInputs {

  datatype Input = Enter | Exit | ProcessFrame | LostFocus

  /** `Enter` and `Exit` are sent by the machine alone. */
  predicate IsUsers(input: Input) { input == ProcessFrame || input == LostFocus }
}
