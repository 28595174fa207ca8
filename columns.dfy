/** The keys of a ticket record: the columns of the ticket export, the column the
    preprocessor adds, and the two fields the language model contributes. */
module Columns {
  const TicketIdColumn := "Ticket ID"
  const CustomerNameColumn := "Customer Name"
  const EmailColumn := "Customer Email"
  const AgeColumn := "Customer Age"
  const ProductColumn := "Product Purchased"
  const DateOfPurchaseColumn := "Date of Purchase"
  const SubjectColumn := "Ticket Subject"
  const DescriptionColumn := "Ticket Description"
  const StatusColumn := "Ticket Status"
  const ResolutionColumn := "Resolution"
  const PriorityColumn := "Ticket Priority"
  const TimeToResolutionColumn := "Time to Resolution"
  const RatingColumn := "Customer Satisfaction Rating"
  const SegmentColumn := "Customer_Segment"
  const RootCauseField := "root_cause"
  const SentimentField := "sentiment"
}
