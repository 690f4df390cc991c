/**
  The interface of the point-cloud recognizer the gesture handler calls.
  Only the shapes of its values are modelled here: the recognizer itself
  (resampling, normalisation, cloud matching) is not part of this model and
  reaches the handler as an uninterpreted classification function.
 */
module PDollar {

  /** One captured sample: screen x, flipped screen y, and the stroke it belongs to. */
  datatype Point = Point(x: real, y: real, strokeId: int)

  /** A labelled reference gesture of the training set. */
  datatype Template = Template(name: string, points: seq<Point>)

  /** What the recognizer returns: the best-matching template's name (its gesture class) and its score. */
  datatype Classification = Classification(gestureClass: string, score: real)

  /** The recognizer, as a value: a total function from a candidate and the training set. */
  type Classifier = (seq<Point>, seq<Template>) -> Classification
}
