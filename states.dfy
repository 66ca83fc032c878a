/**
 * The conversation states of states.py. `NoState` is aiogram's "no state set";
 * the three registration states, the two broadcast states and the one ban state
 * follow the state groups of that file.
 */
module States {
  datatype State =
    | NoState
      // RegistrationStates
    | WaitingForName
    | WaitingForCity
    | WaitingForAddress
      // BroadcastStates
    | WaitingForMessage
    | WaitingForConfirmation
      // BanStates
    | WaitingForUsername
}
