/** The exceptions the initialisation module raises, one constructor per distinct cause. */
module Errors {

  datatype Error =
    // ValueError, initialisation.py:171 -- TSTEP or TMAX not positive
    | TimeSettingsUndefined
    // ValueError, initialisation.py:183 -- STIFF, ZTA and CPL counts differ
    | IncompleteCoupling(body: int)
    // ValueError, initialisation.py:211 -- a CPL entry names the body itself
    | SelfCoupling(body: int)
    // ValueError, initialisation.py:285 -- a body without any relation
    | Unconnected(body: int)
    // ValueError, initialisation.py:95 -- START outside the simulated time span
    | StartOutOfSpan(body: int)
    // ValueError, initialisation.py:107 -- STOP outside the simulated time span
    | StopOutOfSpan(body: int)
    // ValueError, initialisation.py:117 -- no TYPE, or SIN/COS without OMEGA or P0
    | IncompleteForce(body: int)
    // NotImplementedError, initialisation.py:66 and 112 -- TYPE=RANDOM
    | RandomNotImplemented
    // ValueError raised by float() or int() on the given text
    | BadNumber(text: string)
    // KeyError on a missing key of the force definition
    | MissingKey(key: string)
    // IndexError: a list or array index out of range, or an index into a numpy scalar
    | IndexOutOfRange
    // TypeError: an index into a plain Python float
    | NotSubscriptable
    // AttributeError raised by InputData.__getattr__ for an attribute never set
    | MissingAttribute(name: string)
    // ValueError raised by np.interp when there are no sample points
    | NoSamples
    // UnboundLocalError: the active body is used before any *BODY line
    | NoActiveBody
}
