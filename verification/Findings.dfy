// Why a judgement is not green. The human-readable sentences of the report are reduced to these tags.

module Findings {

  datatype Reason =
    | AnchorNeverMissing
    | AnchorSharesNothing
    | AnchorUnmeasured
    | AnchorUnusable
    | AuthorityUnmeasured
    | BundleUnmeasured
    | ChainOutsideBundle
    | CloseWithoutOpen
    | ControlNotRed
    | ControlTooShort
    | DidNotComeBack
    | EmptyControl
    | ExpiryUnmeasured
    | MostlyExcluded
    | MovedBackwards
    | NeverClosed
    | NeverMoved
    | NoAuthoritySet
    | NoSvidServed
    | NotPerformed
    | NothingBeforeRestart
    | NothingJudged
    | OldCredentialServed
    | OthersNotMeasured
    | RestartInsideOverlap
    | RotationLost
    | SecondOpening
    | SignerUnmeasured
    | SpanTooShort
    | Stalled
    | StateFileMissing
    | StateFileUnmeasured
    | SvidUnmeasured
    | TooFewPoints
    | TooFewRotations
    | UnobservedStretch
    | VolumeTouched
    | WindowNotOver
}
