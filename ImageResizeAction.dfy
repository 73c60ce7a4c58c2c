/** The trigger policy of a resize request (ImageResizeAction.java). */
module ImageResizeAction {

  /** When to resize: always, only when the image is larger than the target,
      only when it is smaller than the target, or never. */
  datatype Action = Always | IfLarger | IfSmaller | Never
}
