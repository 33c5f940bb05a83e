/** The conditions (status effects) a game can carry. Kept apart from the manager so that
    scheduled work can name a condition without depending on the manager. */
module ConditionKinds {
  /** ACTIVEQUESTION is set while a question is being asked; HAND_LOCK while the hider may
      only play or discard cards. */
  datatype Condition = ActiveQuestion | HandLock
}
